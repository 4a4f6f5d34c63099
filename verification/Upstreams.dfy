/** `reconcile_hermes_upstreams`: one managed upstream per keyed Hermes profile, and nothing
    else touched. */
module Upstreams {
  import opened Basics

  const MANAGED_BY := "agent:hermes"
  const DEFAULT_PROFILE := "default"
  const UPSTREAM_PREFIX := "hermes"
  const ENV_PREFIX := "HAL0_HERMES_API_KEY__"

  /** An upstream; `settings` stands for the fields the reconciler always sets alike. */
  datatype Upstream = Upstream(name: string, url: string, authEnv: string, managedBy: string,
                               owned: seq<string>, settings: nat)

  const HERMES_SETTINGS := 0

  /** What is read of the Hermes home and its gateway: the profile directories, each profile's
      usable key and model id, the API server's address, and the health probes' answers. */
  datatype Home = Home(dirs: seq<string>, keys: map<string, string>, modelId: string -> string,
                       base: string, alive: bool, health: string -> nat)

  function UpstreamName(profile: string): string {
    if profile == DEFAULT_PROFILE then UPSTREAM_PREFIX else UPSTREAM_PREFIX + "." + profile
  }

  lemma NamesDiffer(p: string, q: string)
    requires UpstreamName(p) == UpstreamName(q)
    ensures p == q
  {
    if p != DEFAULT_PROFILE && q != DEFAULT_PROFILE {
      assert p == UpstreamName(p)[|UPSTREAM_PREFIX| + 1..] && q == UpstreamName(q)[|UPSTREAM_PREFIX| + 1..];
    } else if p != q {
      assert false;
    }
  }

  function EnvChar(c: char): char {
    if 'a' <= c <= 'z' then (c as int - 32) as char
    else if 'A' <= c <= 'Z' || '0' <= c <= '9' then c
    else '_'
  }

  /** The variable that carries a profile's key. Two profiles may share one. */
  function EnvName(profile: string): string {
    ENV_PREFIX + seq(|profile|, i requires 0 <= i < |profile| => EnvChar(profile[i]))
  }

  predicate IsAlnum(c: char) { 'a' <= c <= 'z' || 'A' <= c <= 'Z' || '0' <= c <= '9' }

  /** The same letter in either case, or the same digit, or two characters that are neither. */
  predicate Alike(c: char, d: char) {
    || c == d || (!IsAlnum(c) && !IsAlnum(d))
    || ('a' <= c <= 'z' && c as int == d as int + 32) || ('a' <= d <= 'z' && d as int == c as int + 32)
  }

  /** Two profiles share a variable just when their names are alike. */
  lemma SharedVariable(p: string, q: string)
    ensures EnvName(p) == EnvName(q) <==> |p| == |q| && forall i | 0 <= i < |p| :: Alike(p[i], q[i])
  {
    if EnvName(p) == EnvName(q) {
      forall i | 0 <= i < |p| ensures Alike(p[i], q[i]) {
        assert EnvName(p)[|ENV_PREFIX| + i] == EnvChar(p[i]) && EnvName(q)[|ENV_PREFIX| + i] == EnvChar(q[i]);
      }
    }
  }

  function Build(home: Home, profile: string): Upstream {
    Upstream(UpstreamName(profile),
             if profile == DEFAULT_PROFILE then home.base + "/v1" else home.base + "/p/" + profile + "/v1",
             EnvName(profile), MANAGED_BY, [home.modelId(profile)], HERMES_SETTINGS)
  }

  // ---- Which profiles are served ----

  /** Left out only when the gateway is up and answers 404 for the profile. */
  predicate Served(home: Home, profile: string) {
    !(home.alive && home.health(profile) == 404)
  }

  function ServedDirs(home: Home, dirs: seq<string>): seq<string> {
    if dirs == [] then []
    else ServedDirs(home, dirs[..|dirs| - 1]) + (if Served(home, dirs[|dirs| - 1]) then [dirs[|dirs| - 1]] else [])
  }

  function Candidates(home: Home): seq<string> { [DEFAULT_PROFILE] + ServedDirs(home, home.dirs) }

  lemma {:induction false} ServedDirsAre(home: Home, dirs: seq<string>, p: string)
    ensures p in ServedDirs(home, dirs) <==> p in dirs && Served(home, p)
    decreases |dirs|
  {
    if dirs != [] {
      assert dirs == dirs[..|dirs| - 1] + [dirs[|dirs| - 1]];
      ServedDirsAre(home, dirs[..|dirs| - 1], p);
    }
  }

  /** `default` comes first, and then, in order, just the directories for which a live gateway does
      not answer 404; `kept` says which those are. */
  ghost predicate AreCandidates(home: Home, dirs: seq<string>, out: seq<string>, kept: seq<nat>) {
    && |out| == |kept| + 1 && out[0] == "default"
    && (forall i, j | 0 <= i < j < |kept| :: kept[i] < kept[j])
    && (forall i | 0 <= i < |kept| :: kept[i] < |dirs| && out[i + 1] == dirs[kept[i]])
    && (forall i: nat | i < |dirs| :: i in kept <==> !(home.alive && home.health(dirs[i]) == 404))
  }

  /** `_candidate_profiles`. */
  method CandidateProfiles(home: Home) returns (out: seq<string>, ghost kept: seq<nat>)
    ensures out == Candidates(home) && AreCandidates(home, home.dirs, out, kept)
  {
    out := [DEFAULT_PROFILE];
    for i := 0 to |home.dirs|
      invariant out == [DEFAULT_PROFILE] + ServedDirs(home, home.dirs[..i])
    {
      assert home.dirs[..i + 1][..i] == home.dirs[..i];
      if !(home.alive && home.health(home.dirs[i]) == 404) { out := out + [home.dirs[i]]; }
    }
    assert home.dirs[..|home.dirs|] == home.dirs;
    kept := CandidatesAre(home, home.dirs);
  }

  lemma {:induction false} CandidatesAre(home: Home, dirs: seq<string>) returns (kept: seq<nat>)
    ensures AreCandidates(home, dirs, [DEFAULT_PROFILE] + ServedDirs(home, dirs), kept)
    decreases |dirs|
  {
    if dirs == [] {
      kept := [];
    } else {
      var init, last := dirs[..|dirs| - 1], dirs[|dirs| - 1];
      assert dirs == init + [last];
      kept := CandidatesAre(home, init);
      NextCandidate(home, init, last, [DEFAULT_PROFILE] + ServedDirs(home, init), kept);
      if !(home.alive && home.health(last) == 404) { kept := kept + [|init|]; }
    }
  }

  lemma NextCandidate(home: Home, dirs: seq<string>, dir: string, out: seq<string>, kept: seq<nat>)
    requires AreCandidates(home, dirs, out, kept)
    ensures if home.alive && home.health(dir) == 404 then AreCandidates(home, dirs + [dir], out, kept)
            else AreCandidates(home, dirs + [dir], out + [dir], kept + [|dirs|])
  {
    forall i | i in kept ensures i < |dirs| {}
  }

  // ---- Which profiles are registered ----

  type Registry = map<string, Upstream>

  predicate Managed(u: Upstream) { u.managedBy == MANAGED_BY }

  predicate Foreign(r: Registry, name: string) { name in r && !Managed(r[name]) }

  /** The claims made so far: the profiles registered, and who owns each model id and variable. */
  datatype Claims = Claims(taken: seq<string>, owners: map<string, string>, vars: map<string, string>)

  const NO_CLAIMS := Claims([], map[], map[])

  function SetDefault(m: map<string, string>, k: string, v: string): map<string, string> {
    if k in m then m else m[k := v]
  }

  /** One profile's turn: it needs a key, a name no one else holds, and a model id and a
      variable that no earlier profile has claimed. */
  function Claim(home: Home, r: Registry, c: Claims, profile: string): Claims {
    if profile !in home.keys || Foreign(r, UpstreamName(profile)) then c
    else
      var owners := SetDefault(c.owners, home.modelId(profile), profile);
      if owners[home.modelId(profile)] != profile then c
      else
        var vars := SetDefault(c.vars, EnvName(profile), profile);
        if vars[EnvName(profile)] != profile then c.(owners := owners)
        else Claims(c.taken + [profile], owners, vars)
  }

  function ClaimAll(home: Home, r: Registry, profiles: seq<string>): Claims {
    if profiles == [] then NO_CLAIMS
    else Claim(home, r, ClaimAll(home, r, profiles[..|profiles| - 1]), profiles[|profiles| - 1])
  }

  /** The profiles that end up registered. */
  function Taken(home: Home, r: Registry): seq<string> { ClaimAll(home, r, Candidates(home)).taken }

  // ---- What the reconcile leaves ----

  function Built(home: Home, taken: seq<string>): Registry {
    if taken == [] then map[]
    else
      var u := Build(home, taken[|taken| - 1]);
      Built(home, taken[..|taken| - 1])[u.name := u]
  }

  function Keyed(home: Home, taken: seq<string>): map<string, string> {
    if taken == [] then map[]
    else
      var p := taken[|taken| - 1];
      var prior := Keyed(home, taken[..|taken| - 1]);
      if p in home.keys then prior[EnvName(p) := home.keys[p]] else prior
  }

  function ForeignPart(r: Registry): Registry { map n | n in r && !Managed(r[n]) :: r[n] }

  /** Managed entries whose profile is no longer registered. */
  function Dropped(r: Registry, kept: Registry): set<string> {
    set n | n in r && Managed(r[n]) && n !in kept
  }

  /** Their variables, but for those an entry that stays uses. */
  function DroppedVars(r: Registry, kept: Registry, vars: map<string, string>): set<string> {
    set n | n in Dropped(r, kept) && r[n].authEnv !in vars.Keys :: r[n].authEnv
  }

  /** The state the reconciler acts on. */
  class World {
    var registry: Registry
    var environ: map<string, string>
    var cache: map<string, seq<string>>

    constructor (r: Registry, e: map<string, string>, c: map<string, seq<string>>)
      ensures registry == r && environ == e && cache == c
    {
      registry, environ, cache := r, e, c;
    }
  }

  /** Entries whose address or model changes. */
  function Changed(r: Registry, kept: Registry): set<string> {
    set n | n in kept && n in r && (r[n].url != kept[n].url || r[n].owned != kept[n].owned)
  }

  // ---- The claims ----

  /** Each registered profile has a key and holds its name, its model id and its variable. */
  ghost predicate Holds(home: Home, r: Registry, c: Claims) {
    && (forall p | p in c.taken ::
          && p in home.keys && !Foreign(r, UpstreamName(p))
          && home.modelId(p) in c.owners && c.owners[home.modelId(p)] == p
          && EnvName(p) in c.vars && c.vars[EnvName(p)] == p)
    && (forall v | v in c.vars :: c.vars[v] in c.taken && EnvName(c.vars[v]) == v)
  }

  /** Why a profile with a key is not registered: its name, its model id or its variable is
      taken by someone else. */
  ghost predicate Accounted(home: Home, r: Registry, c: Claims, p: string) {
    p in home.keys ==>
      || p in c.taken
      || Foreign(r, UpstreamName(p))
      || (home.modelId(p) in c.owners && c.owners[home.modelId(p)] != p)
      || (EnvName(p) in c.vars && c.vars[EnvName(p)] != p)
  }

  lemma ClaimHolds(home: Home, r: Registry, c: Claims, p: string)
    requires Holds(home, r, c)
    ensures Holds(home, r, Claim(home, r, c, p))
  {}

  lemma ClaimAccounts(home: Home, r: Registry, c: Claims, p: string)
    ensures Accounted(home, r, Claim(home, r, c, p), p)
    ensures forall q | Accounted(home, r, c, q) :: Accounted(home, r, Claim(home, r, c, p), q)
  {}

  lemma {:induction false} ClaimAllHolds(home: Home, r: Registry, profiles: seq<string>)
    ensures Holds(home, r, ClaimAll(home, r, profiles))
    ensures forall p | p in profiles :: Accounted(home, r, ClaimAll(home, r, profiles), p)
    decreases |profiles|
  {
    if profiles != [] {
      var init, last := profiles[..|profiles| - 1], profiles[|profiles| - 1];
      assert profiles == init + [last];
      ClaimAllHolds(home, r, init);
      ClaimHolds(home, r, ClaimAll(home, r, init), last);
      ClaimAccounts(home, r, ClaimAll(home, r, init), last);
    }
  }

  lemma {:induction false} BuiltAre(home: Home, taken: seq<string>)
    ensures forall p | p in taken ::
              UpstreamName(p) in Built(home, taken) && Built(home, taken)[UpstreamName(p)] == Build(home, p)
    ensures forall n | n in Built(home, taken) :: exists p :: p in taken && UpstreamName(p) == n
    decreases |taken|
  {
    if taken != [] {
      var init, last := taken[..|taken| - 1], taken[|taken| - 1];
      assert taken == init + [last];
      BuiltAre(home, init);
      forall p | p in taken
        ensures UpstreamName(p) in Built(home, taken) && Built(home, taken)[UpstreamName(p)] == Build(home, p)
      {
        if UpstreamName(p) == UpstreamName(last) { NamesDiffer(p, last); }
      }
    }
  }

  lemma {:induction false} KeyedAre(home: Home, taken: seq<string>)
    requires forall p | p in taken :: p in home.keys
    requires forall p, q | p in taken && q in taken && EnvName(p) == EnvName(q) :: p == q
    ensures forall p | p in taken :: EnvName(p) in Keyed(home, taken) && Keyed(home, taken)[EnvName(p)] == home.keys[p]
    ensures forall v | v in Keyed(home, taken) :: exists p :: p in taken && EnvName(p) == v
    decreases |taken|
  {
    if taken != [] {
      var init, last := taken[..|taken| - 1], taken[|taken| - 1];
      assert taken == init + [last] && last in taken;
      KeyedAre(home, init);
    }
  }

  lemma TakenAreDistinct(home: Home, r: Registry, c: Claims, p: string, q: string)
    requires Holds(home, r, c) && p in c.taken && q in c.taken
    requires EnvName(p) == EnvName(q) || home.modelId(p) == home.modelId(q)
    ensures p == q
  {}

  // ---- First come, first served ----

  /** It has a key, and no one else holds its upstream's name. */
  predicate Asks(home: Home, r: Registry, p: string) {
    p in home.keys && (UpstreamName(p) in r ==> r[UpstreamName(p)].managedBy == "agent:hermes")
  }

  /** Of the profiles that ask, it comes first of those with its key. */
  ghost predicate First(asks: string -> bool, key: string -> string, profiles: seq<string>, p: string) {
    asks(p) && exists j: nat :: FirstAt(asks, key, profiles, p, j)
  }

  ghost predicate FirstAt(asks: string -> bool, key: string -> string, profiles: seq<string>, p: string, j: nat) {
    j < |profiles| && profiles[j] == p && forall k | 0 <= k < j :: !(asks(profiles[k]) && key(profiles[k]) == key(p))
  }

  ghost predicate Asked(asks: string -> bool, key: string -> string, profiles: seq<string>, id: string) {
    exists p :: p in profiles && asks(p) && key(p) == id
  }

  /** It is the first profile to ask for its model id... */
  ghost predicate FirstForModel(home: Home, r: Registry, profiles: seq<string>, p: string) {
    First(q => Asks(home, r, q), home.modelId, profiles, p)
  }

  /** ...and, of those that are, the first for its variable. */
  ghost predicate FirstForBoth(home: Home, r: Registry, profiles: seq<string>, p: string) {
    First(q => FirstForModel(home, r, profiles, q), EnvName, profiles, p)
  }

  lemma OneMore(asks: string -> bool, key: string -> string, init: seq<string>, last: string, p: string)
    ensures First(asks, key, init + [last], p) <==>
              First(asks, key, init, p) || (p == last && asks(p) && !Asked(asks, key, init, key(p)))
  {
    var all := init + [last];
    if First(asks, key, init, p) {
      var j: nat :| FirstAt(asks, key, init, p, j);
      assert FirstAt(asks, key, all, p, j);
    } else if p == last && asks(p) && !Asked(asks, key, init, key(p)) {
      assert FirstAt(asks, key, all, p, |init|);
    }
    if First(asks, key, all, p) {
      var j: nat :| FirstAt(asks, key, all, p, j);
      if j < |init| {
        forall k | 0 <= k < j ensures !(asks(init[k]) && key(init[k]) == key(p)) { assert all[k] == init[k]; }
        assert FirstAt(asks, key, init, p, j);
      } else {
        forall q | q in init ensures !(asks(q) && key(q) == key(p)) {
          var k :| 0 <= k < |init| && init[k] == q;
          assert all[k] == q;
        }
      }
    }
  }

  lemma FirstAsked(asks: string -> bool, key: string -> string, profiles: seq<string>, p: string)
    requires First(asks, key, profiles, p)
    ensures Asked(asks, key, profiles, key(p)) && p in profiles
  {
    var j: nat :| FirstAt(asks, key, profiles, p, j);
  }

  lemma SameFirst(asks: string -> bool, more: string -> bool, key: string -> string, profiles: seq<string>)
    requires forall q | q in profiles :: asks(q) == more(q)
    ensures forall p :: First(asks, key, profiles, p) == First(more, key, profiles, p)
    ensures forall id :: Asked(asks, key, profiles, id) == Asked(more, key, profiles, id)
  {
    forall p ensures First(asks, key, profiles, p) == First(more, key, profiles, p) {
      if First(asks, key, profiles, p) {
        var j: nat :| FirstAt(asks, key, profiles, p, j);
        assert FirstAt(more, key, profiles, p, j);
      }
      if First(more, key, profiles, p) {
        var j: nat :| FirstAt(more, key, profiles, p, j);
        assert FirstAt(asks, key, profiles, p, j);
      }
    }
  }

  /** A dict filled by `setdefault` in the order of the profiles: each key is its first asker's. */
  ghost predicate Claimed(asks: string -> bool, key: string -> string, profiles: seq<string>, m: map<string, string>) {
    && (forall id :: id in m <==> Asked(asks, key, profiles, id))
    && (forall p :: key(p) in m && m[key(p)] == p <==> First(asks, key, profiles, p))
  }

  lemma ClaimedNext(asks: string -> bool, key: string -> string, init: seq<string>, last: string,
                    m: map<string, string>)
    requires Claimed(asks, key, init, m)
    ensures Claimed(asks, key, init + [last], if asks(last) then SetDefault(m, key(last), last) else m)
  {
    var all, next := init + [last], if asks(last) then SetDefault(m, key(last), last) else m;
    forall id ensures id in next <==> Asked(asks, key, all, id) {}
    forall p ensures key(p) in next && next[key(p)] == p <==> First(asks, key, all, p) {
      OneMore(asks, key, init, last, p);
      if First(asks, key, init, p) { FirstAsked(asks, key, init, p); }
    }
  }

  /** The claims after the turns of `profiles`. */
  ghost predicate ClaimsAre(home: Home, r: Registry, profiles: seq<string>, c: Claims) {
    && Claimed(q => Asks(home, r, q), home.modelId, profiles, c.owners)
    && Claimed(q => FirstForModel(home, r, profiles, q), EnvName, profiles, c.vars)
    && (forall p :: p in c.taken <==> FirstForBoth(home, r, profiles, p))
  }

  /** A profile's turn adds it to those for which it is first. */
  lemma TurnFirst(asks: string -> bool, key: string -> string, init: seq<string>, last: string, m: map<string, string>,
                  taken: seq<string>)
    requires Claimed(asks, key, init, m) && forall p :: p in taken <==> First(asks, key, init, p)
    ensures var next := SetDefault(m, key(last), last);
            var wins := asks(last) && next[key(last)] == last;
            forall p :: p in (if wins then taken + [last] else taken) <==> First(asks, key, init + [last], p)
  {
    ClaimedNext(asks, key, init, last, m);
    forall p ensures First(asks, key, init + [last], p) <==>
                       First(asks, key, init, p) || (p == last && First(asks, key, init + [last], last)) {
      OneMore(asks, key, init, last, p);
    }
  }

  lemma FirstKept(home: Home, r: Registry, init: seq<string>, last: string, q: string)
    requires q in init
    ensures FirstForModel(home, r, init, q) == FirstForModel(home, r, init + [last], q)
  {
    var asks := q => Asks(home, r, q);
    OneMore(asks, home.modelId, init, last, q);
    if Asks(home, r, q) { assert Asked(asks, home.modelId, init, home.modelId(q)); }
  }

  lemma ClaimNext(home: Home, r: Registry, init: seq<string>, last: string, c: Claims)
    requires ClaimsAre(home, r, init, c)
    ensures ClaimsAre(home, r, init + [last], Claim(home, r, c, last))
  {
    var first := q => FirstForModel(home, r, init + [last], q);
    ClaimedNext(q => Asks(home, r, q), home.modelId, init, last, c.owners);
    VariablesSoFar(home, r, init, last, c);
    ClaimedNext(first, EnvName, init, last, c.vars);
    TurnFirst(first, EnvName, init, last, c.vars, c.taken);
  }

  /** One more profile does not change who was first before. */
  lemma VariablesSoFar(home: Home, r: Registry, init: seq<string>, last: string, c: Claims)
    requires ClaimsAre(home, r, init, c)
    ensures var first := q => FirstForModel(home, r, init + [last], q);
            Claimed(first, EnvName, init, c.vars) && forall p :: p in c.taken <==> First(first, EnvName, init, p)
  {
    var before, first := q => FirstForModel(home, r, init, q), q => FirstForModel(home, r, init + [last], q);
    forall q | q in init ensures before(q) == first(q) { FirstKept(home, r, init, last, q); }
    SameFirst(before, first, EnvName, init);
  }

  /** A profile is registered just when it has a key, its upstream's name is free, it is the first of
      such profiles for its model id, and the first of those for its variable. */
  lemma {:induction false} FirstClaims(home: Home, r: Registry, profiles: seq<string>)
    ensures ClaimsAre(home, r, profiles, ClaimAll(home, r, profiles))
    decreases |profiles|
  {
    if profiles == [] {
      NoneFirst(q => Asks(home, r, q), home.modelId);
      NoneFirst(q => FirstForModel(home, r, [], q), EnvName);
    } else {
      var init, last := profiles[..|profiles| - 1], profiles[|profiles| - 1];
      assert profiles == init + [last];
      FirstClaims(home, r, init);
      ClaimNext(home, r, init, last, ClaimAll(home, r, init));
    }
  }

  lemma NoneFirst(asks: string -> bool, key: string -> string)
    ensures forall p :: !First(asks, key, [], p)
    ensures forall id :: !Asked(asks, key, [], id)
  {}

  // ---- What holds after any reconcile ----

  function RegistryAfter(home: Home, r: Registry): Registry {
    ForeignPart(r) + Built(home, Taken(home, r))
  }

  function EnvironAfter(home: Home, r: Registry, e: map<string, string>): map<string, string> {
    var keyed := Keyed(home, Taken(home, r));
    (e + keyed) - DroppedVars(r, Built(home, Taken(home, r)), keyed)
  }

  lemma TakenFacts(home: Home, r: Registry)
    ensures Holds(home, r, ClaimAll(home, r, Candidates(home)))
    ensures forall p | p in Taken(home, r) ::
              UpstreamName(p) in Built(home, Taken(home, r))
                && Built(home, Taken(home, r))[UpstreamName(p)] == Build(home, p)
    ensures forall n | n in Built(home, Taken(home, r)) :: exists p :: p in Taken(home, r) && UpstreamName(p) == n
    ensures forall p | p in Taken(home, r) ::
              p in home.keys && EnvName(p) in Keyed(home, Taken(home, r))
                && Keyed(home, Taken(home, r))[EnvName(p)] == home.keys[p]
    ensures forall v | v in Keyed(home, Taken(home, r)) :: exists p :: p in Taken(home, r) && EnvName(p) == v
  {
    var c := ClaimAll(home, r, Candidates(home));
    ClaimAllHolds(home, r, Candidates(home));
    BuiltAre(home, c.taken);
    forall p, q | p in c.taken && q in c.taken && EnvName(p) == EnvName(q) ensures p == q {
      TakenAreDistinct(home, r, c, p, q);
    }
    KeyedAre(home, c.taken);
  }

  /** Entries Hermes does not manage are unchanged; the managed ones are exactly the entries of
      the registered profiles. */
  lemma ForeignKept(home: Home, r: Registry, n: string)
    ensures Foreign(r, n) ==> Foreign(RegistryAfter(home, r), n) && RegistryAfter(home, r)[n] == r[n]
    ensures Foreign(RegistryAfter(home, r), n) ==> Foreign(r, n)
    ensures n in RegistryAfter(home, r) && Managed(RegistryAfter(home, r)[n]) <==>
              exists p :: p in Taken(home, r) && UpstreamName(p) == n
    ensures forall p | p in Taken(home, r) && UpstreamName(p) == n :: RegistryAfter(home, r)[n] == Build(home, p)
  {
    TakenFacts(home, r);
  }

  /** No two managed entries own one model id or share a key variable, and each one's variable
      holds its own profile's key. */
  lemma ManagedAreApart(home: Home, r: Registry, e: map<string, string>, m: string, n: string)
    requires m in RegistryAfter(home, r) && Managed(RegistryAfter(home, r)[m])
    requires n in RegistryAfter(home, r) && Managed(RegistryAfter(home, r)[n])
    ensures var after := RegistryAfter(home, r);
            after[m].owned == after[n].owned || after[m].authEnv == after[n].authEnv ==> m == n
    ensures var v := RegistryAfter(home, r)[n].authEnv;
            v in EnvironAfter(home, r, e)
            && exists p :: p in home.keys && UpstreamName(p) == n && EnvName(p) == v
                 && EnvironAfter(home, r, e)[v] == home.keys[p]
  {
    TakenFacts(home, r);
    ForeignKept(home, r, m);
    ForeignKept(home, r, n);
    var p :| p in Taken(home, r) && UpstreamName(p) == m;
    var q :| q in Taken(home, r) && UpstreamName(q) == n;
    var after := RegistryAfter(home, r);
    if after[m].owned == after[n].owned || after[m].authEnv == after[n].authEnv {
      assert after[m].owned[0] == home.modelId(p) && after[n].owned[0] == home.modelId(q);
      TakenAreDistinct(home, r, ClaimAll(home, r, Candidates(home)), p, q);
    }
    assert EnvName(q) in Keyed(home, Taken(home, r));
  }

  /** A variable of an entry that is dropped is gone, unless a registered profile uses it; a
      variable of neither kind is as it was. */
  lemma VariablesAfter(home: Home, r: Registry, e: map<string, string>, v: string)
    ensures (exists n :: n in r && Managed(r[n]) && n !in RegistryAfter(home, r) && r[n].authEnv == v)
            && !(exists p :: p in Taken(home, r) && EnvName(p) == v)
            ==> v !in EnvironAfter(home, r, e)
    ensures !(exists n :: n in r && Managed(r[n]) && n !in RegistryAfter(home, r) && r[n].authEnv == v)
            && !(exists p :: p in Taken(home, r) && EnvName(p) == v)
            ==> (v in EnvironAfter(home, r, e) <==> v in e) && (v in e ==> EnvironAfter(home, r, e)[v] == e[v])
  {
    TakenFacts(home, r);
    var kept := Built(home, Taken(home, r));
    forall n | n in r && Managed(r[n]) ensures n !in RegistryAfter(home, r) <==> n in Dropped(r, kept) {}
    assert v in Keyed(home, Taken(home, r)) <==> exists p :: p in Taken(home, r) && EnvName(p) == v;
    if n :| n in r && Managed(r[n]) && n !in RegistryAfter(home, r) && r[n].authEnv == v {
      assert n in Dropped(r, kept);
    }
  }

  /** An entry that Hermes does not manage can so lose its variable: if it shares the one of an entry
      that is dropped, and no registered profile uses it. */
  lemma ForeignLosesVariable(home: Home, r: Registry, e: map<string, string>, n: string, dropped: string)
    requires Foreign(r, n) && dropped in r && Managed(r[dropped]) && dropped !in RegistryAfter(home, r)
    requires r[dropped].authEnv == r[n].authEnv && !(exists p :: p in Taken(home, r) && EnvName(p) == r[n].authEnv)
    ensures Foreign(RegistryAfter(home, r), n) && RegistryAfter(home, r)[n] == r[n]
              && r[n].authEnv !in EnvironAfter(home, r, e)
  {
    ForeignKept(home, r, n);
    VariablesAfter(home, r, e, r[n].authEnv);
  }

  /** With the gateway down no profile is dropped for liveness: every keyed profile is
      registered, or someone else has its name, its model id or its variable. */
  lemma DownKeepsProfiles(home: Home, r: Registry, p: string)
    requires !home.alive && (p == DEFAULT_PROFILE || p in home.dirs)
    ensures p in Candidates(home)
    ensures Accounted(home, r, ClaimAll(home, r, Candidates(home)), p)
  {
    ServedDirsAre(home, home.dirs, p);
    ClaimAllHolds(home, r, Candidates(home));
  }

  // ---- A second reconcile does nothing ----

  lemma {:induction false} SameClaims(home: Home, r: Registry, r': Registry, profiles: seq<string>)
    requires forall n :: Foreign(r, n) <==> Foreign(r', n)
    ensures ClaimAll(home, r, profiles) == ClaimAll(home, r', profiles)
    decreases |profiles|
  {
    if profiles != [] { SameClaims(home, r, r', profiles[..|profiles| - 1]); }
  }

  lemma SameTaken(home: Home, r: Registry)
    ensures Taken(home, RegistryAfter(home, r)) == Taken(home, r)
  {
    forall n ensures Foreign(r, n) <==> Foreign(RegistryAfter(home, r), n) { ForeignKept(home, r, n); }
    SameClaims(home, r, RegistryAfter(home, r), Candidates(home));
  }

  lemma AllKept(home: Home, r: Registry, n: string)
    requires n in RegistryAfter(home, r) && Managed(RegistryAfter(home, r)[n])
    ensures n in Built(home, Taken(home, r)) && RegistryAfter(home, r)[n] == Built(home, Taken(home, r))[n]
  {}

  lemma SameForeign(home: Home, r: Registry)
    ensures ForeignPart(RegistryAfter(home, r)) == ForeignPart(r)
  {
    var r' := RegistryAfter(home, r);
    forall n | n in ForeignPart(r') ensures n in ForeignPart(r) && r'[n] == r[n] { ForeignKept(home, r, n); }
    forall n | n in ForeignPart(r) ensures n in ForeignPart(r') { ForeignKept(home, r, n); }
  }

  lemma AddTwice(e: map<string, string>, keyed: map<string, string>, gone: set<string>)
    requires gone !! keyed.Keys
    ensures ((e + keyed) - gone) + keyed == (e + keyed) - gone
  {}

  /** On unchanged inputs the next reconcile changes neither the registry nor the environment,
      removes nothing and evicts nothing. */
  lemma SecondTime(home: Home, r: Registry, e: map<string, string>)
    ensures var r' := RegistryAfter(home, r);
            var e' := EnvironAfter(home, r, e);
            && RegistryAfter(home, r') == r' && EnvironAfter(home, r', e') == e'
            && Dropped(r', Built(home, Taken(home, r'))) == {} && Changed(r', Built(home, Taken(home, r'))) == {}
  {
    var r', e' := RegistryAfter(home, r), EnvironAfter(home, r, e);
    SameTaken(home, r);
    var kept, keyed := Built(home, Taken(home, r)), Keyed(home, Taken(home, r));
    forall n | n in r' && Managed(r'[n]) ensures n in kept { AllKept(home, r, n); }
    assert Dropped(r', kept) == {} && DroppedVars(r', kept, keyed) == {} && Changed(r', kept) == {};
    SameForeign(home, r);
    AddTwice(e, keyed, DroppedVars(r, kept, keyed));
  }

  // ---- The code ----

  lemma {:induction false} NextTaken(home: Home, r: Registry, profiles: seq<string>, i: nat)
    requires i < |profiles|
    ensures ClaimAll(home, r, profiles[..i + 1]) == Claim(home, r, ClaimAll(home, r, profiles[..i]), profiles[i])
  {
    assert profiles[..i + 1][..i] == profiles[..i];
  }

  /** Each registered name and its variable. */
  function Desired(taken: seq<string>): map<string, string> {
    if taken == [] then map[]
    else
      var p := taken[|taken| - 1];
      Desired(taken[..|taken| - 1])[UpstreamName(p) := EnvName(p)]
  }

  lemma {:induction false} DesiredAre(taken: seq<string>)
    ensures forall p | p in taken :: UpstreamName(p) in Desired(taken) && Desired(taken)[UpstreamName(p)] == EnvName(p)
    ensures forall n | n in Desired(taken) ::
              exists p :: p in taken && UpstreamName(p) == n && Desired(taken)[n] == EnvName(p)
    decreases |taken|
  {
    if taken != [] {
      var init, last := taken[..|taken| - 1], taken[|taken| - 1];
      assert taken == init + [last] && last in taken;
      DesiredAre(init);
      forall p | p in taken
        ensures UpstreamName(p) in Desired(taken) && Desired(taken)[UpstreamName(p)] == EnvName(p)
      {
        if UpstreamName(p) == UpstreamName(last) { NamesDiffer(p, last); }
      }
    }
  }

  lemma DesiredCovers(home: Home, r: Registry)
    ensures var taken := Taken(home, r);
            Desired(taken).Keys == Built(home, taken).Keys && Desired(taken).Values == Keyed(home, taken).Keys
  {
    var taken := Taken(home, r);
    DesiredNames(home, taken);
    forall v ensures v in Desired(taken).Values <==> v in Keyed(home, taken) { DesiredVar(home, r, v); }
  }

  lemma DesiredNames(home: Home, taken: seq<string>)
    ensures Desired(taken).Keys == Built(home, taken).Keys
  {
    DesiredAre(taken);
    BuiltAre(home, taken);
  }

  lemma DesiredVar(home: Home, r: Registry, v: string)
    ensures v in Desired(Taken(home, r)).Values <==> v in Keyed(home, Taken(home, r))
  {
    var taken := Taken(home, r);
    DesiredAre(taken);
    KeyedVar(home, r, v);
    if v in Keyed(home, taken) {
      var p :| p in taken && EnvName(p) == v;
      assert Desired(taken)[UpstreamName(p)] == v;
    }
  }

  lemma KeyedVar(home: Home, r: Registry, v: string)
    ensures v in Keyed(home, Taken(home, r)) <==> exists p :: p in Taken(home, r) && EnvName(p) == v
  {
    TakenFacts(home, r);
  }

  /** The registry part of the way through. */
  function Upserted(home: Home, r: Registry, taken: seq<string>): Registry { r + Built(home, taken) }

  lemma ForeignNow(home: Home, r: Registry, c: Claims, n: string)
    requires Holds(home, r, c)
    ensures Foreign(Upserted(home, r, c.taken), n) <==> Foreign(r, n)
  {
    BuiltAre(home, c.taken);
  }

  lemma UpdateSum<K, V>(a: map<K, V>, b: map<K, V>, k: K, v: V)
    ensures a + b[k := v] == (a + b)[k := v]
  {}

  /** The cached entry that one more registered profile outdates. */
  lemma OneMoreChanged(r: Registry, kept: Registry, u: Upstream)
    requires u.name in kept ==> kept[u.name] == u
    ensures var now := r + kept;
            Changed(r, kept[u.name := u])
            == Changed(r, kept)
               + (if u.name in now && (now[u.name].url != u.url || now[u.name].owned != u.owned) then {u.name} else {})
  {
    var after := kept[u.name := u];
    forall n | n != u.name ensures n in Changed(r, after) <==> n in Changed(r, kept) {}
  }

  lemma SameEntry(home: Home, taken: seq<string>, p: string)
    ensures UpstreamName(p) in Built(home, taken) ==> Built(home, taken)[UpstreamName(p)] == Build(home, p)
  {
    BuiltAre(home, taken);
    if UpstreamName(p) in Built(home, taken) {
      var q :| q in taken && UpstreamName(q) == UpstreamName(p);
      NamesDiffer(p, q);
    }
  }

  /** The state after the profiles `taken` have been registered. */
  ghost predicate Registered(w: World, home: Home, r0: Registry, e0: map<string, string>, c0: map<string, seq<string>>,
                             taken: seq<string>)
    reads w
  {
    && w.registry == r0 + Built(home, taken) && w.environ == e0 + Keyed(home, taken)
    && w.cache == c0 - Changed(r0, Built(home, taken))
  }

  /** Set the key and put the entry in place; evict the models cached for an entry that moved. */
  method Register(w: World, home: Home, profile: string)
    requires profile in home.keys
    modifies w
    ensures w.environ == old(w.environ)[EnvName(profile) := home.keys[profile]]
    ensures w.registry == old(w.registry)[UpstreamName(profile) := Build(home, profile)]
    ensures var u := Build(home, profile);
            w.cache == old(w.cache) - (if u.name in old(w.registry)
                                          && (old(w.registry)[u.name].url != u.url
                                              || old(w.registry)[u.name].owned != u.owned)
                                       then {u.name} else {})
  {
    var u := Build(home, profile);
    w.environ := w.environ[EnvName(profile) := home.keys[profile]];
    if u.name in w.registry && (w.registry[u.name].url != u.url || w.registry[u.name].owned != u.owned) {
      w.cache := w.cache - {u.name};
    }
    w.registry := w.registry[u.name := u];
  }

  method RegisterNext(w: World, home: Home, profile: string, ghost taken: seq<string>,
                      ghost r0: Registry, ghost e0: map<string, string>, ghost c0: map<string, seq<string>>)
    requires profile in home.keys && Registered(w, home, r0, e0, c0, taken)
    modifies w
    ensures Registered(w, home, r0, e0, c0, taken + [profile])
  {
    ghost var u := Build(home, profile);
    assert (taken + [profile])[..|taken|] == taken;
    SameEntry(home, taken, profile);
    OneMoreChanged(r0, Built(home, taken), u);
    UpdateSum(r0, Built(home, taken), u.name, u);
    UpdateSum(e0, Keyed(home, taken), EnvName(profile), home.keys[profile]);
    Register(w, home, profile);
  }

  /** The loop over the candidates. `desired` maps each registered name to its variable. */
  method RegisterAll(w: World, home: Home, candidates: seq<string>) returns (desired: map<string, string>)
    modifies w
    ensures var taken := ClaimAll(home, old(w.registry), candidates).taken;
            && Registered(w, home, old(w.registry), old(w.environ), old(w.cache), taken)
            && desired == Desired(taken)
  {
    desired := map[];
    var owners: map<string, string>, vars: map<string, string> := map[], map[];
    ghost var r0, e0, c0 := w.registry, w.environ, w.cache;
    ghost var c := NO_CLAIMS;
    NothingRegistered(w, home);
    for i := 0 to |candidates|
      invariant c == ClaimAll(home, r0, candidates[..i]) && owners == c.owners && vars == c.vars
      invariant Registered(w, home, r0, e0, c0, c.taken) && desired == Desired(c.taken)
    {
      ClaimAllHolds(home, r0, candidates[..i]);
      NextTaken(home, r0, candidates, i);
      owners, vars, desired := Turn(w, home, candidates[i], owners, vars, desired, c, r0, e0, c0);
      c := Claim(home, r0, c, candidates[i]);
    }
    assert candidates[..|candidates|] == candidates;
  }

  lemma NothingRegistered(w: World, home: Home)
    ensures Registered(w, home, w.registry, w.environ, w.cache, [])
  {
    assert Changed(w.registry, Built(home, [])) == {};
    assert w.cache - {} == w.cache;
  }

  /** One candidate's turn in the loop. */
  method Turn(w: World, home: Home, profile: string, owners0: map<string, string>, vars0: map<string, string>,
              desired0: map<string, string>, ghost c: Claims,
              ghost r0: Registry, ghost e0: map<string, string>, ghost c0: map<string, seq<string>>)
    returns (owners: map<string, string>, vars: map<string, string>, desired: map<string, string>)
    requires Holds(home, r0, c) && owners0 == c.owners && vars0 == c.vars
    requires Registered(w, home, r0, e0, c0, c.taken) && desired0 == Desired(c.taken)
    modifies w
    ensures var next := Claim(home, r0, c, profile);
            && owners == next.owners && vars == next.vars
            && Registered(w, home, r0, e0, c0, next.taken) && desired == Desired(next.taken)
  {
    ForeignNow(home, r0, c, UpstreamName(profile));
    var foreign := Foreign(w.registry, UpstreamName(profile));
    var taken;
    owners, vars, taken := MakeClaim(home, profile, foreign, owners0, vars0, r0, c);
    desired := desired0;
    if taken {
      RegisterNext(w, home, profile, c.taken, r0, e0, c0);
      assert (c.taken + [profile])[..|c.taken|] == c.taken;
      desired := desired[UpstreamName(profile) := EnvName(profile)];
    }
  }

  /** Whether a candidate may be registered, with the claims it leaves either way. */
  method MakeClaim(home: Home, profile: string, foreign: bool, owners0: map<string, string>, vars0: map<string, string>,
                   ghost r0: Registry, ghost c: Claims)
    returns (owners: map<string, string>, vars: map<string, string>, taken: bool)
    requires owners0 == c.owners && vars0 == c.vars && foreign == Foreign(r0, UpstreamName(profile))
    ensures var next := Claim(home, r0, c, profile);
            && owners == next.owners && vars == next.vars
            && next.taken == (if taken then c.taken + [profile] else c.taken)
    ensures taken ==> profile in home.keys
  {
    owners, vars, taken := owners0, vars0, false;
    if profile !in home.keys || foreign { return; }
    var id, env := home.modelId(profile), EnvName(profile);
    if id !in owners { owners := owners[id := profile]; }
    if owners[id] == profile {
      if env !in vars { vars := vars[env := profile]; }
      taken := vars[env] == profile;
    }
  }

  /** The variables of the entries in `gone` that no wanted entry uses. */
  function Vars(r: Registry, gone: set<string>, used: set<string>): set<string> {
    set n | n in gone && n in r && r[n].authEnv !in used :: r[n].authEnv
  }

  lemma OneMoreVar(r: Registry, gone: set<string>, used: set<string>, n: string)
    requires n in r
    ensures Vars(r, gone + {n}, used) == Vars(r, gone, used) + (if r[n].authEnv !in used then {r[n].authEnv} else {})
  {
    var more := Vars(r, gone + {n}, used);
    forall v | v in Vars(r, gone, used) ensures v in more {
      var m :| m in gone && m in r && r[m].authEnv !in used && r[m].authEnv == v;
      assert m in gone + {n};
    }
    if r[n].authEnv !in used { assert n in gone + {n}; }
  }

  /** The loop over the registry: drop what is managed and no longer wanted. */
  method RemoveStale(w: World, desired: map<string, string>) returns (removed: set<string>)
    modifies w
    ensures removed == set n | n in old(w.registry) && Managed(old(w.registry)[n]) && n !in desired
    ensures w.registry == old(w.registry) - removed && w.cache == old(w.cache) - removed
    ensures w.environ == old(w.environ) - Vars(old(w.registry), removed, desired.Values)
  {
    removed := {};
    var all := w.registry;
    var todo := all.Keys;
    assert Vars(all, {}, desired.Values) == {};
    while todo != {}
      invariant todo <= all.Keys
      invariant removed == set n | n in all && n !in todo && Managed(all[n]) && n !in desired
      invariant w.registry == all - removed && w.cache == old(w.cache) - removed
      invariant w.environ == old(w.environ) - Vars(all, removed, desired.Values)
      decreases todo
    {
      var n :| n in todo;
      if Managed(all[n]) && n !in desired {
        OneMoreVar(all, removed, desired.Values, n);
        DropOne(w, n, all[n].authEnv, all[n].authEnv !in desired.Values);
        removed := removed + {n};
      }
      todo := todo - {n};
    }
  }

  method DropOne(w: World, n: string, env: string, unused: bool)
    modifies w
    ensures w.registry == old(w.registry) - {n} && w.cache == old(w.cache) - {n}
    ensures w.environ == old(w.environ) - (if unused then {env} else {})
  {
    w.registry := w.registry - {n};
    w.cache := w.cache - {n};
    if unused { w.environ := w.environ - {env}; }
  }

  // ---- What a reconcile leaves, said of the states ----

  /** The profiles that a reconcile registers. */
  ghost predicate Wins(home: Home, r: Registry, p: string) { FirstForBoth(home, r, Candidates(home), p) }

  /** The entry of a registered profile. */
  predicate Enters(home: Home, u: Upstream, p: string) {
    && u.name == UpstreamName(p) && u.managedBy == "agent:hermes" && u.owned == [home.modelId(p)]
    && u.url == (if p == "default" then home.base + "/v1" else home.base + "/p/" + p + "/v1")
    && u.authEnv == EnvName(p)
  }

  /** The entries are the foreign ones there were and those of the registered profiles. */
  ghost predicate EntriesAre(home: Home, r0: Registry, r: Registry) {
    && (forall n | n in r0 && r0[n].managedBy != "agent:hermes" :: n in r && r[n] == r0[n])
    && (forall p | Wins(home, r0, p) :: UpstreamName(p) in r && Enters(home, r[UpstreamName(p)], p))
    && (forall n | n in r ::
          (n in r0 && r0[n].managedBy != "agent:hermes") || exists p :: Wins(home, r0, p) && UpstreamName(p) == n)
  }

  predicate Moved(u: Upstream, v: Upstream) { u.url != v.url || u.owned != v.owned }

  /** What is removed is what Hermes managed and now is not there; its cached models go, and those of
      an entry whose address or model id changed, and no others. */
  ghost predicate CacheIs(r0: Registry, r: Registry, c0: map<string, seq<string>>, c: map<string, seq<string>>,
                          removed: set<string>) {
    && (forall n :: n in removed <==> n in r0 && r0[n].managedBy == "agent:hermes" && n !in r)
    && (forall n :: n in c <==> (n in c0 && n !in removed && !(n in r0 && n in r && Moved(r0[n], r[n]))))
    && (forall n | n in c :: c[n] == c0[n])
  }

  lemma WinsIsTaken(home: Home, r: Registry, p: string)
    ensures Wins(home, r, p) <==> p in Taken(home, r)
  {
    FirstClaims(home, r, Candidates(home));
  }

  lemma EntriesAfter(home: Home, r: Registry)
    ensures EntriesAre(home, r, RegistryAfter(home, r))
  {
    forall p ensures Wins(home, r, p) <==> p in Taken(home, r) { WinsIsTaken(home, r, p); }
    forall n ensures Foreign(r, n) ==> Foreign(RegistryAfter(home, r), n) && RegistryAfter(home, r)[n] == r[n] {
      ForeignKept(home, r, n);
    }
    EntriesOfTaken(home, r);
  }

  lemma EntriesOfTaken(home: Home, r: Registry)
    ensures var after := RegistryAfter(home, r);
            && (forall p | p in Taken(home, r) :: UpstreamName(p) in after && Enters(home, after[UpstreamName(p)], p))
            && (forall n | n in after :: Foreign(r, n) || exists p :: p in Taken(home, r) && UpstreamName(p) == n)
  {
    TakenFacts(home, r);
  }

  lemma CacheAfter(home: Home, r: Registry, c: map<string, seq<string>>)
    ensures var kept := Built(home, Taken(home, r));
            var removed := Dropped(r, kept);
            CacheIs(r, RegistryAfter(home, r), c, c - Changed(r, kept) - removed, removed)
  {
    TakenManaged(home, r);
  }

  /** `reconcile_hermes_upstreams`. */
  method Reconcile(w: World, home: Home) returns (removed: set<string>)
    modifies w
    ensures EntriesAre(home, old(w.registry), w.registry)
    ensures CacheIs(old(w.registry), w.registry, old(w.cache), w.cache, removed)
    ensures w.registry == RegistryAfter(home, old(w.registry))
    ensures w.environ == EnvironAfter(home, old(w.registry), old(w.environ))
    ensures removed == Dropped(old(w.registry), Built(home, Taken(home, old(w.registry))))
    ensures w.cache == old(w.cache) - Changed(old(w.registry), Built(home, Taken(home, old(w.registry)))) - removed
  {
    ghost var r0 := w.registry;
    var candidates, _ := CandidateProfiles(home);
    var desired := RegisterAll(w, home, candidates);
    removed := RemoveStale(w, desired);
    DesiredCovers(home, r0);
    TakenManaged(home, r0);
    SweptMaps(r0, Built(home, Taken(home, r0)), removed, desired.Values);
    EntriesAfter(home, r0);
    CacheAfter(home, r0, old(w.cache));
  }

  lemma TakenManaged(home: Home, r: Registry)
    ensures forall n | n in Built(home, Taken(home, r)) :: Managed(Built(home, Taken(home, r))[n])
  {
    TakenFacts(home, r);
  }

  /** Sweeping the registry leaves the foreign entries and the wanted ones. */
  lemma SweptMaps(r: Registry, kept: Registry, removed: set<string>, used: set<string>)
    requires forall n | n in kept :: Managed(kept[n])
    requires removed == set n | n in r + kept && Managed((r + kept)[n]) && n !in kept
    ensures removed == Dropped(r, kept) && (r + kept) - removed == ForeignPart(r) + kept
    ensures Vars(r + kept, removed, used) == set n | n in Dropped(r, kept) && r[n].authEnv !in used :: r[n].authEnv
  {
    assert removed == Dropped(r, kept);
    assert forall n | n in removed :: (r + kept)[n] == r[n];
  }

  /** A second reconcile on unchanged inputs removes nothing and changes nothing: neither the
      registry, nor the environment, nor the models cache. */
  method ReconcileTwice(w: World, home: Home) returns (first: set<string>, second: set<string>)
    modifies w
    ensures second == {} && w.registry == RegistryAfter(home, old(w.registry))
    ensures w.environ == EnvironAfter(home, old(w.registry), old(w.environ))
    ensures w.cache == old(w.cache) - Changed(old(w.registry), Built(home, Taken(home, old(w.registry)))) - first
  {
    SecondTime(home, w.registry, w.environ);
    first := Reconcile(w, home);
    second := Reconcile(w, home);
  }
}
