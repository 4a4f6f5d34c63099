/** `apply_mode`: save the operator's approvals mode, render it into Hermes's config and restart
    the agent, or put both files back. */
module CommandApprovals {
  import opened Basics

  datatype Mode = Smart | Manual

  /** What the seed file says: `mode` is the default when nothing valid is stored. */
  datatype Setting = Setting(mode: Mode, stored: bool, invalid: bool)

  datatype RestartFate = Restarted | TimedOut | RestartFailed

  /** What surrounds a run. Files exist and can be read or not; `parse` reads a seed text and
      `render` writes a mode into one; `modeIn` reads `approvals.mode` from a config text;
      `configSet` and `merge` are what `hermes config set` and the re-merge of overrides.yaml
      make of the config; `overrideAt` is the override in force at each moment. */
  datatype Env = Env(seedExists: bool, seedReadable: bool, installed: bool, configReadable: bool,
                     parse: string -> Option<Setting>, render: (string, Mode) -> string,
                     modeIn: string -> Option<string>,
                     configSet: (string, Mode) -> string, merge: string -> string,
                     overrideAt: nat -> Option<string>,
                     saves: Fate, sets: Fate, merges: Fate, restoresConfig: Fate, restoresSeed: Fate,
                     unitActive: Option<bool>, restarts: RestartFate)
  {
    /** The seed written for a mode reads back as that mode. */
    ghost predicate Valid() {
      forall text, m | parse(text).Some? :: parse(render(text, m)) == Some(Setting(m, true, false))
    }
  }

  function Spelled(m: Mode): string { match m case Smart => "smart" case Manual => "manual" }

  /** `validate_mode`. */
  function ValidateMode(value: string): (m: Option<Mode>)
    ensures m.Some? <==> value == "smart" || value == "manual"
    ensures m.Some? ==> Spelled(m.value) == value
  {
    if value == "smart" then Some(Smart) else if value == "manual" then Some(Manual) else None
  }

  datatype Restart = NotNeeded | Overridden | NotInstalled | Unknown | Inactive | Timeout | DidRestart

  datatype Outcome =
    | Invalid
    | Unavailable
    | ApplyFailed(rolledBack: bool, rollbackErrors: bool)
    | Returned(changed: bool, restart: Restart)

  class Files {
    var seed: string
    var config: string

    constructor (s: string, c: string)
      ensures seed == s && config == c
    {
      seed, config := s, c;
    }
  }

  function Wrote(fate: Fate, before: string, after: string): string {
    if fate.Failed? then before else after
  }

  /** What Hermes should be found using: the override then in force, unless empty, or the mode. */
  function Expected(override: Option<string>, mode: Mode): string {
    if override.Some? && override.value != "" then override.value else Spelled(mode)
  }

  /** The inner `_rollback`. */
  method Rollback(f: Files, env: Env, seedBefore: string, configBefore: string) returns (errors: bool)
    modifies f
    ensures errors <==> !env.restoresConfig.Done? || !env.restoresSeed.Done?
    ensures !env.restoresConfig.Failed? ==> f.config == configBefore
    ensures !env.restoresSeed.Failed? ==> f.seed == seedBefore
  {
    errors := false;
    f.config := Wrote(env.restoresConfig, f.config, configBefore);
    if !env.restoresConfig.Done? { errors := true; }
    f.seed := Wrote(env.restoresSeed, f.seed, seedBefore);
    if !env.restoresSeed.Done? { errors := true; }
  }

  /** Nothing to do: the mode is set, and Hermes has it or an override decides. */
  predicate Settled(env: Env, seed: string, config: string, mode: Mode)
    requires env.parse(seed).Some?
  {
    var setting, override := env.parse(seed).value, env.overrideAt(0);
    && setting.mode == mode && !setting.invalid
    && (override.Some? || (setting.stored && (!env.installed || env.modeIn(config) == Some(Spelled(mode)))))
  }

  /** What is needed is there and can be read. */
  predicate Readable(env: Env, seed: string) {
    env.seedReadable && env.parse(seed).Some? && (env.installed ==> env.configReadable)
  }

  /** The config cannot be made to read as it should. */
  predicate RenderFails(env: Env, config: string, mode: Mode) {
    || !env.sets.Done? || !env.merges.Done?
    || env.modeIn(env.merge(env.configSet(config, mode))) != Some(Expected(env.overrideAt(1), mode))
  }

  /** A running agent is restarted; one whose liveness is unknown is never taken for stopped. */
  predicate RestartTold(env: Env, restart: Restart) {
    if env.unitActive.None? then restart.Unknown?
    else if !env.unitActive.value then restart.Inactive?
    else (env.restarts.TimedOut? && restart.Timeout?) || (env.restarts.Restarted? && restart.DidRestart?)
  }

  /** What a changed mode is reported to need, case by case. */
  predicate RestartSaid(env: Env, config: string, value: string, restart: Restart) {
    if env.overrideAt(0).Some? then restart.Overridden?
    else if !env.installed then restart.NotInstalled?
    else if env.modeIn(config) == Some(value) then restart.NotNeeded?
    else RestartTold(env, restart)
  }

  /** The config has to be rendered: the seed is saved, nothing overrides it, and Hermes is
      provisioned with another mode. */
  predicate Renders(env: Env, seed: string, config: string, mode: Mode) {
    && Readable(env, seed) && !Settled(env, seed, config, mode) && env.saves.Done?
    && env.overrideAt(0).None? && env.installed && env.modeIn(config) != Some(Spelled(mode))
  }

  predicate RestartFails(env: Env) { env.unitActive == Some(true) && env.restarts.RestartFailed? }

  /** `apply_mode`. `seen` is the override read when the config was last looked at. */
  method ApplyMode(f: Files, env: Env, value: string) returns (out: Outcome, ghost seen: Option<string>)
    requires env.Valid()
    modifies f
    // Refused: nothing changed.
    ensures out.Invalid? <==> ValidateMode(value).None?
    ensures out.Unavailable? <==> ValidateMode(value).Some? && !env.seedExists
    ensures out.Invalid? || out.Unavailable? ==> f.seed == old(f.seed) && f.config == old(f.config)
    // Failed before the config is touched, or rolled back, only for a named reason.
    ensures ValidateMode(value).Some? && env.seedExists ==>
              (out.ApplyFailed? && !out.rolledBack <==>
                 !Readable(env, old(f.seed))
                 || (!Settled(env, old(f.seed), old(f.config), ValidateMode(value).value) && !env.saves.Done?))
    ensures out.ApplyFailed? && out.rollbackErrors ==> out.rolledBack
    ensures out.ApplyFailed? && out.rolledBack <==>
              && ValidateMode(value).Some? && env.seedExists
              && Renders(env, old(f.seed), old(f.config), ValidateMode(value).value)
              && (RenderFails(env, old(f.config), ValidateMode(value).value) || RestartFails(env))
    // Failed, with nothing that went wrong in the rollback: both files as they were, except that
    // a save reported as failed after it took effect is not undone.
    ensures out.ApplyFailed? && !out.rollbackErrors ==> f.config == old(f.config)
    ensures out.ApplyFailed? && !out.rollbackErrors && out.rolledBack ==> f.seed == old(f.seed)
    ensures out.ApplyFailed? && !out.rolledBack && Readable(env, old(f.seed)) ==>
              (f.seed == old(f.seed) <==>
                 !env.saves.FailedAfter? || env.render(old(f.seed), ValidateMode(value).value) == old(f.seed))
    ensures out.ApplyFailed? && !Readable(env, old(f.seed)) ==> f.seed == old(f.seed)
    // Returned: the setting reads as the mode asked for.
    ensures out.Returned? ==> env.parse(f.seed).Some? && Some(env.parse(f.seed).value.mode) == ValidateMode(value)
    // And on a provisioned box with no override at the start, Hermes's config holds the override
    // then seen, or else that mode.
    ensures out.Returned? && env.installed && env.overrideAt(0).None? ==>
              env.modeIn(f.config) == Some(if seen.Some? && seen.value != "" then seen.value else value)
    ensures out.Returned? ==>
              var renders := Renders(env, old(f.seed), old(f.config), ValidateMode(value).value);
              seen == env.overrideAt(if renders then 1 else 0)
    ensures out.Returned? && !out.changed <==>
              && ValidateMode(value).Some? && env.seedExists && Readable(env, old(f.seed))
              && Settled(env, old(f.seed), old(f.config), ValidateMode(value).value)
    // Nothing is changed just when the mode was stored, and Hermes has it, or an override decides;
    // a mode that was never saved counts only under an override.
    ensures out.Returned? && !out.changed <==>
              && value in {"smart", "manual"} && env.seedExists && env.seedReadable && env.parse(old(f.seed)).Some?
              && (env.installed ==> env.configReadable)
              && env.parse(old(f.seed)).value.mode == (if value == "smart" then Smart else Manual)
              && !env.parse(old(f.seed)).value.invalid
              && (env.overrideAt(0).None? ==>
                    && env.parse(old(f.seed)).value.stored
                    && (env.installed ==> env.modeIn(old(f.config)) == Some(value)))
    ensures out.Returned? && (out.changed || env.overrideAt(0).None?) ==>
              env.parse(f.seed).Some? && env.parse(f.seed).value.stored && !env.parse(f.seed).value.invalid
    ensures out.Returned? ==> if out.changed then RestartSaid(env, old(f.config), value, out.restart)
                              else out.restart.NotNeeded?
    ensures out.Returned? && out.restart.NotNeeded? ==> f.config == old(f.config)
    // A config Hermes already agrees with is left alone, and so is an overridden one.
    ensures out.Returned? && !out.changed ==> f.seed == old(f.seed) && f.config == old(f.config)
    ensures out.Returned? && env.overrideAt(0).Some? ==> f.config == old(f.config)
  {
    seen := None;
    var valid := ValidateMode(value);
    if valid.None? { return Invalid, seen; }
    var mode := valid.value;
    if !env.seedExists { return Unavailable, seen; }
    if !env.seedReadable { return ApplyFailed(false, false), seen; }
    var seedBefore, configBefore := f.seed, f.config;
    var setting := env.parse(f.seed);
    if setting.None? { return ApplyFailed(false, false), seen; }
    var override := env.overrideAt(0);
    seen := override;
    var rendered := env.modeIn(f.config);
    var effective := if override.Some? then override.value else Spelled(setting.value.mode);
    if env.installed && !env.configReadable { return ApplyFailed(false, false), seen; }
    var noop := && setting.value.mode == mode && !setting.value.invalid
                && (override.Some? || setting.value.stored)
                && (override.Some? || !env.installed || rendered == Some(effective));
    if noop { return Returned(false, NotNeeded), seen; }

    f.seed := Wrote(env.saves, f.seed, env.render(f.seed, mode));
    if !env.saves.Done? { return ApplyFailed(false, false), seen; }
    if override.Some? { return Returned(true, Overridden), seen; }
    if !env.installed { return Returned(true, NotInstalled), seen; }
    if env.modeIn(f.config) == Some(Spelled(mode)) { return Returned(true, NotNeeded), seen; }

    out, seen := RenderAndRestart(f, env, mode, seedBefore, configBefore);
  }

  /** Steps 4 and 5: set the config, re-merge the overrides, read back, restart. */
  method RenderAndRestart(f: Files, env: Env, mode: Mode, seedBefore: string, configBefore: string)
    returns (out: Outcome, ghost seen: Option<string>)
    modifies f
    ensures out.ApplyFailed? || (out.Returned? && out.changed)
    ensures out.ApplyFailed? <==> RenderFails(env, old(f.config), mode) || RestartFails(env)
    ensures out.ApplyFailed? ==>
              out.rolledBack && (!out.rollbackErrors ==> f.seed == seedBefore && f.config == configBefore)
    ensures out.Returned? ==> f.seed == old(f.seed) && env.modeIn(f.config) == Some(Expected(seen, mode))
    ensures seen == env.overrideAt(1)
    ensures out.Returned? ==> RestartTold(env, out.restart)
  {
    seen := env.overrideAt(1);
    f.config := Wrote(env.sets, f.config, env.configSet(f.config, mode));
    var setErrors := !env.sets.Done?;
    if !setErrors {
      f.config := Wrote(env.merges, f.config, env.merge(f.config));
      setErrors := !env.merges.Done?;
    }
    var expected := Expected(env.overrideAt(1), mode);
    if setErrors || env.modeIn(f.config) != Some(expected) {
      var errors := Rollback(f, env, seedBefore, configBefore);
      return ApplyFailed(true, errors), seen;
    }
    if env.unitActive.None? { return Returned(true, Unknown), seen; }
    if !env.unitActive.value { return Returned(true, Inactive), seen; }
    match env.restarts {
      case Restarted => return Returned(true, DidRestart), seen;
      case TimedOut => return Returned(true, Timeout), seen;
      case RestartFailed =>
        var errors := Rollback(f, env, seedBefore, configBefore);
        return ApplyFailed(true, errors), seen;
    }
  }

  /** With no override the rendered mode is the one asked for. */
  method ApplyFreely(f: Files, env: Env, value: string) returns (out: Outcome)
    requires env.Valid() && env.overrideAt(0).None? && env.overrideAt(1).None?
    modifies f
    ensures out.Returned? && env.installed ==> env.modeIn(f.config) == Some(value)
  {
    ghost var seen;
    out, seen := ApplyMode(f, env, value);
  }

  /** A save that took effect though it was reported as failed stays, with no rollback error. */
  method SaveMisreported() returns (out: Outcome, before: string, after: string)
    ensures out == ApplyFailed(false, false) && before != after
  {
    var parse := (text: string) => Some(Setting(if text == "manual" then Manual else Smart, true, false));
    var env := Env(true, true, false, false, parse, (text: string, m: Mode) => Spelled(m), (text: string) => None,
                   (text: string, m: Mode) => text, (text: string) => text, (t: nat) => None,
                   FailedAfter, Done, Done, Done, Done, None, Restarted);
    before := "smart";
    var f := new Files(before, "");
    ghost var seen;
    out, seen := ApplyMode(f, env, "manual");
    after := f.seed;
  }
}
