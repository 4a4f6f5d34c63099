/** The transaction of `set_version`: replace a group of files, and put every original back, or
    keep it for recovery, if anything fails. */
module SetVersion {
  /** A file of the transaction directory: a candidate, or the original of a destination. */
  datatype Temp = Candidate(index: nat) | Original(index: nat)

  /** What decides a run: which steps fail (`os.replace` fails with no effect), what `uv lock`
      does to the repository's files and whether it fails, and the final validation. */
  datatype Script = Script(writes: nat -> bool, checks: nat -> bool, copies: nat -> bool,
                           swaps: nat -> bool, restores: nat -> bool, cleans: nat -> bool,
                           lock: map<string, string> -> map<string, string>, locks: bool, validates: bool)

  /** How a run ends: committed; failed with the originals in place; or failed with some
      originals only in the transaction directory, which is then kept. */
  datatype Outcome = Committed | Failed | RecoveryNeeded

  class Repo {
    var files: map<string, string>
    var temp: map<Temp, string>
    var open: bool  // the transaction directory exists

    constructor (f: map<string, string>)
      ensures files == f && temp == map[] && !open
    {
      files, temp, open := f, map[], false;
    }
  }

  /** `dsts[i]`'s original is in the transaction directory. */
  predicate BackedUp(temp: map<Temp, string>, dsts: seq<string>, orig: map<string, string>, i: nat)
    requires i < |dsts|
  {
    dsts[i] in orig && Original(i) in temp && temp[Original(i)] == orig[dsts[i]]
  }

  predicate Holds(files: map<string, string>, orig: map<string, string>, dst: string) {
    dst in orig && dst in files && files[dst] == orig[dst]
  }

  /** Write and check every candidate; nothing of the repository changes. */
  method Stage(r: Repo, cands: seq<(string, string)>, script: Script) returns (ok: bool)
    modifies r`temp
    ensures ok ==> forall i | 0 <= i < |cands| :: Candidate(i) in r.temp && r.temp[Candidate(i)] == cands[i].1
    ensures ok <==> forall i | 0 <= i < |cands| :: script.writes(i) && script.checks(i)
  {
    for i := 0 to |cands|
      invariant forall k | 0 <= k < i :: script.writes(k) && script.checks(k)
      invariant forall k | 0 <= k < i :: Candidate(k) in r.temp && r.temp[Candidate(k)] == cands[k].1
    {
      if !script.writes(i) { return false; }
      r.temp := r.temp[Candidate(i) := cands[i].1];
      if !script.checks(i) { return false; }
    }
    ok := true;
  }

  /** Copy every original before any destination is replaced. */
  method BackUp(r: Repo, dsts: seq<string>, script: Script) returns (ok: bool)
    modifies r`temp
    ensures forall i: nat | Candidate(i) in old(r.temp) ::
              Candidate(i) in r.temp && r.temp[Candidate(i)] == old(r.temp[Candidate(i)])
    ensures ok ==> forall i | 0 <= i < |dsts| :: BackedUp(r.temp, dsts, r.files, i)
    ensures ok <==> forall i | 0 <= i < |dsts| :: dsts[i] in r.files && script.copies(i)
  {
    for i := 0 to |dsts|
      invariant forall k | 0 <= k < i :: dsts[k] in r.files && script.copies(k)
      invariant forall k | 0 <= k < i :: BackedUp(r.temp, dsts, r.files, k)
      invariant forall k: nat | Candidate(k) in old(r.temp) ::
                  Candidate(k) in r.temp && r.temp[Candidate(k)] == old(r.temp[Candidate(k)])
    {
      if dsts[i] !in r.files || !script.copies(i) { return false; }
      ghost var before := r.temp;
      r.temp := r.temp[Original(i) := r.files[dsts[i]]];
      assert forall k | 0 <= k < i :: BackedUp(before, dsts, r.files, k) ==> BackedUp(r.temp, dsts, r.files, k);
    }
    ok := true;
  }

  /** The files with every candidate in its place. */
  function Overlay(files: map<string, string>, cands: seq<(string, string)>): map<string, string> {
    if cands == [] then files
    else Overlay(files, cands[..|cands| - 1])[cands[|cands| - 1].0 := cands[|cands| - 1].1]
  }

  /** Each destination has the text of the last candidate for it, and every other file is as it was. */
  ghost predicate InPlace(was: map<string, string>, now: map<string, string>, cands: seq<(string, string)>) {
    && (forall i | 0 <= i < |cands| && IsLast(cands, i) :: cands[i].0 in now && now[cands[i].0] == cands[i].1)
    && (forall p | !IsDst(cands, p) :: (p in now <==> p in was) && (p in now ==> now[p] == was[p]))
  }

  ghost predicate IsDst(cands: seq<(string, string)>, p: string) {
    exists i :: 0 <= i < |cands| && cands[i].0 == p
  }

  predicate IsLast(cands: seq<(string, string)>, i: nat)
    requires i < |cands|
  {
    forall j | i < j < |cands| :: cands[j].0 != cands[i].0
  }

  lemma {:induction false} OverlayIs(files: map<string, string>, cands: seq<(string, string)>)
    ensures InPlace(files, Overlay(files, cands), cands)
    decreases |cands|
  {
    if cands != [] {
      var n := |cands| - 1;
      var now, prior := Overlay(files, cands), Overlay(files, cands[..n]);
      OverlayIs(files, cands[..n]);
      forall i | 0 <= i < |cands| && IsLast(cands, i) ensures cands[i].0 in now && now[cands[i].0] == cands[i].1 {
        if i < n { assert cands[..n][i] == cands[i] && cands[n].0 != cands[i].0 && IsLast(cands[..n], i); }
      }
      forall p | !IsDst(cands, p) ensures p != cands[n].0 && !IsDst(cands[..n], p) {
        forall i | 0 <= i < n ensures cands[..n][i].0 != p { assert cands[i].0 != p; }
      }
    }
  }

  /** Replace the destinations one by one, lock, and validate. The backups stay. */
  method Install(r: Repo, cands: seq<(string, string)>, script: Script) returns (ok: bool)
    requires forall i | 0 <= i < |cands| :: Candidate(i) in r.temp && r.temp[Candidate(i)] == cands[i].1
    modifies r`files, r`temp
    ensures forall i: nat :: Original(i) in r.temp <==> Original(i) in old(r.temp)
    ensures forall i: nat | Original(i) in r.temp :: r.temp[Original(i)] == old(r.temp[Original(i)])
    ensures ok ==> r.files == script.lock(Overlay(old(r.files), cands))
    ensures ok <==> (forall i | 0 <= i < |cands| :: script.swaps(i)) && script.locks && script.validates
  {
    for i := 0 to |cands|
      invariant forall k | 0 <= k < i :: script.swaps(k)
      invariant r.files == Overlay(old(r.files), cands[..i])
      invariant forall k | i <= k < |cands| :: Candidate(k) in r.temp && r.temp[Candidate(k)] == cands[k].1
      invariant forall k: nat :: Original(k) in r.temp <==> Original(k) in old(r.temp)
      invariant forall k: nat | Original(k) in r.temp :: r.temp[Original(k)] == old(r.temp[Original(k)])
    {
      assert cands[..i + 1][..i] == cands[..i];
      if !script.swaps(i) { return false; }
      r.files := r.files[cands[i].0 := r.temp[Candidate(i)]];
      r.temp := r.temp - {Candidate(i)};
    }
    assert cands[..|cands|] == cands;
    r.files := script.lock(r.files);
    ok := script.locks && script.validates;
  }

  /** Put every original back, going on past a restore that fails. */
  method Restore(r: Repo, dsts: seq<string>, ghost orig: map<string, string>, script: Script) returns (errors: bool)
    requires forall i | 0 <= i < |dsts| :: BackedUp(r.temp, dsts, orig, i)
    modifies r`files, r`temp
    ensures forall i | 0 <= i < |dsts| :: Holds(r.files, orig, dsts[i]) || BackedUp(r.temp, dsts, orig, i)
    ensures !errors ==> forall i | 0 <= i < |dsts| :: Holds(r.files, orig, dsts[i])
    ensures errors <==> exists i :: 0 <= i < |dsts| && !script.restores(i)
    ensures forall p | p in old(r.files) && p !in dsts :: p in r.files && r.files[p] == old(r.files[p])
  {
    errors := false;
    for i := 0 to |dsts|
      invariant forall k | i <= k < |dsts| :: BackedUp(r.temp, dsts, orig, k)
      invariant forall k | 0 <= k < i :: Holds(r.files, orig, dsts[k]) || BackedUp(r.temp, dsts, orig, k)
      invariant !errors ==> forall k | 0 <= k < i :: Holds(r.files, orig, dsts[k])
      invariant errors <==> exists k :: 0 <= k < i && !script.restores(k)
      invariant forall p | p in old(r.files) && p !in dsts :: p in r.files && r.files[p] == old(r.files[p])
    {
      assert BackedUp(r.temp, dsts, orig, i);
      if script.restores(i) {
        assert forall k | 0 <= k < i && Holds(r.files, orig, dsts[k]) ::
                 Holds(r.files[dsts[i] := r.temp[Original(i)]], orig, dsts[k]);
        ghost var before := r.temp;
        r.files := r.files[dsts[i] := r.temp[Original(i)]];
        r.temp := r.temp - {Original(i)};
        assert forall k | 0 <= k < |dsts| && k != i ::
                 BackedUp(before, dsts, orig, k) ==> BackedUp(r.temp, dsts, orig, k);
      } else {
        errors := true;
      }
    }
  }

  /** Remove the candidates that were not consumed; the backups are not touched. */
  method CleanCandidates(r: Repo, n: nat, script: Script)
    modifies r`temp
    ensures forall i: nat :: Original(i) in r.temp <==> Original(i) in old(r.temp)
    ensures forall i: nat | Original(i) in r.temp :: r.temp[Original(i)] == old(r.temp[Original(i)])
    ensures forall i: nat | i < n && script.cleans(i) :: Candidate(i) !in r.temp
  {
    for i := 0 to n
      invariant forall k: nat | k < i && script.cleans(k) :: Candidate(k) !in r.temp
      invariant forall k: nat :: Original(k) in r.temp <==> Original(k) in old(r.temp)
      invariant forall k: nat | Original(k) in r.temp :: r.temp[Original(k)] == old(r.temp[Original(k)])
    {
      if script.cleans(i) { r.temp := r.temp - {Candidate(i)}; }
    }
  }

  function Dsts(cands: seq<(string, string)>): (d: seq<string>)
    ensures |d| == |cands| && forall i | 0 <= i < |cands| :: d[i] == cands[i].0
  {
    seq(|cands|, i requires 0 <= i < |cands| => cands[i].0)
  }

  /** Every step before the first replacement succeeds. */
  ghost predicate Prepares(files: map<string, string>, cands: seq<(string, string)>, script: Script) {
    && (forall i | 0 <= i < |cands| :: script.writes(i) && script.checks(i))
    && (forall i | 0 <= i < |cands| :: Dsts(cands)[i] in files && script.copies(i))
  }

  /** Every step of the run succeeds. */
  ghost predicate Commits(files: map<string, string>, cands: seq<(string, string)>, script: Script) {
    && Prepares(files, cands, script)
    && (forall i | 0 <= i < |cands| :: script.swaps(i)) && script.locks && script.validates
  }

  /** Every candidate written and every original copied. */
  method Prepare(r: Repo, cands: seq<(string, string)>, dsts: seq<string>, script: Script) returns (ok: bool)
    requires dsts == Dsts(cands)
    modifies r`temp
    ensures ok <==> Prepares(r.files, cands, script)
    ensures ok ==> forall i | 0 <= i < |dsts| :: BackedUp(r.temp, dsts, r.files, i)
    ensures ok ==> forall i | 0 <= i < |cands| :: Candidate(i) in r.temp && r.temp[Candidate(i)] == cands[i].1
  {
    ok := Stage(r, cands, script);
    if ok {
      ghost var staged := r.temp;
      ok := BackUp(r, dsts, script);
      assert ok ==>
               forall i | 0 <= i < |cands| :: Candidate(i) in staged && r.temp[Candidate(i)] == staged[Candidate(i)];
    }
  }

  /** With everything backed up: install, or put the originals back. */
  method InstallOrRestore(r: Repo, cands: seq<(string, string)>, dsts: seq<string>, script: Script)
    returns (out: Outcome)
    requires dsts == Dsts(cands) && forall i | 0 <= i < |dsts| :: BackedUp(r.temp, dsts, r.files, i)
    requires forall i | 0 <= i < |cands| :: Candidate(i) in r.temp && r.temp[Candidate(i)] == cands[i].1
    modifies r`files, r`temp
    ensures out.Committed? <==> (forall i | 0 <= i < |cands| :: script.swaps(i)) && script.locks && script.validates
    ensures out.Committed? ==> r.files == script.lock(Overlay(old(r.files), cands))
    ensures out.RecoveryNeeded? <==> !out.Committed? && exists i :: 0 <= i < |cands| && !script.restores(i)
    ensures out.Failed? ==> forall i | 0 <= i < |cands| :: Holds(r.files, old(r.files), dsts[i])
    ensures out.RecoveryNeeded? ==>
              forall i | 0 <= i < |cands| ::
                Holds(r.files, old(r.files), dsts[i]) || BackedUp(r.temp, dsts, old(r.files), i)
  {
    ghost var orig, kept := r.files, r.temp;
    var installed := Install(r, cands, script);
    if installed { return Committed; }
    forall i | 0 <= i < |dsts| ensures BackedUp(r.temp, dsts, orig, i) { assert BackedUp(kept, dsts, orig, i); }
    var errors := Restore(r, dsts, orig, script);
    out := Failed;
    if errors {
      out := RecoveryNeeded;
      CleanCandidates(r, |cands|, script);
    }
  }

  /** The transaction of `set_version`, for any number of files and any failure: no original is
      ever lost. The directory is kept just when a restore failed, and then it holds the
      original of every destination that does not. */
  method Transact(r: Repo, cands: seq<(string, string)>, script: Script)
    returns (out: Outcome, ghost placed: map<string, string>)
    requires !r.open && r.temp == map[]
    modifies r
    ensures out.Failed? ==>
              forall i | 0 <= i < |cands| ::
                if cands[i].0 in old(r.files) then Holds(r.files, old(r.files), cands[i].0) else cands[i].0 !in r.files
    ensures out.RecoveryNeeded? ==>
              forall i | 0 <= i < |cands| ::
                Holds(r.files, old(r.files), cands[i].0) || BackedUp(r.temp, Dsts(cands), old(r.files), i)
    ensures r.open <==> out.RecoveryNeeded?
    ensures !r.open ==> r.temp == map[]
    ensures out.RecoveryNeeded? <==>
              Prepares(old(r.files), cands, script) && !Commits(old(r.files), cands, script)
              && exists i :: 0 <= i < |cands| && !script.restores(i)
    ensures !Prepares(old(r.files), cands, script) ==> r.files == old(r.files)
    ensures out.Committed? <==> Commits(old(r.files), cands, script)
    ensures InPlace(old(r.files), placed, cands) && (out.Committed? ==> r.files == script.lock(placed))
  {
    placed := Overlay(r.files, cands);
    OverlayIs(r.files, cands);
    r.open := true;
    var dsts := Dsts(cands);
    out := Failed;
    var prepared := Prepare(r, cands, dsts, script);
    if prepared { out := InstallOrRestore(r, cands, dsts, script); }
    if !out.RecoveryNeeded? { r.open, r.temp := false, map[]; }
  }
}
