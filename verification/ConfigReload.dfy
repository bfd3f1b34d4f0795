// reloadConfig of daemon/main.cpp, with what setupAccount and teardownAccount do to g_accounts, over the
// account rows of storage/Storage.cpp, their version counter and accountConfigFromRecord of
// daemon/Config.cpp.

module AccountConfigs {
  import opened Bytes

  /** Account names: only equality and the order of std::map matter. */
  type Name = nat

  /** The columns that saveAccountConfig writes, enabled apart. */
  datatype Deployment = Deployment(
    serverUrl: string, sipHost: string, sipExtension: string, sipPassword: string, bridgeDestination: string,
    bridgeDid: string, srtp: string, transport: string, tlsCaFile: string, tlsInsecure: bool,
    outgoingCallTarget: string, signalProxy: string, censorshipCircumvention: bool)

  datatype Row = Row(e164: string, deployment: Deployment, enabled: bool, version: nat)

  /** AccountConfig: the deployment with its defaults filled in. */
  datatype Config = Config(e164: string, deployment: Deployment, version: nat)

  function DefaultDeployment(): Deployment {
    Deployment("", "", "", "", "", "", "disabled", "udp", "", false, "", "", false)
  }

  function OrDefault(s: string, default: string): string { if s == "" then default else s }

  /** accountConfigFromRecord; None where it throws. */
  function ConfigFromRecord(row: Row): Option<Config> {
    var d := row.deployment;
    if row.e164 == "" then None
    else
      var srtp := OrDefault(d.srtp, "disabled");
      if srtp != "disabled" && srtp != "optional" && srtp != "mandatory" then None
      else
        var transport := OrDefault(d.transport, "udp");
        if transport != "udp" && transport != "tls" then None
        else
          var host := if transport == "tls" && d.sipHost != "" && ':' !in d.sipHost then d.sipHost + ":5061" else d.sipHost;
          if transport == "tls" && d.tlsCaFile == "" && !d.tlsInsecure then None
          else Some(Config(row.e164, d.(srtp := srtp, transport := transport, sipHost := host), row.version))
  }

  /** A row is accepted if and only if it names a number, both enumerations are known and a TLS account
      says how to verify. What comes out has the defaults for empty enumerations, the port 5061 for a TLS
      host without one, and everything else as it was; putting it back changes nothing. */
  lemma ConfigFromRecordIff(row: Row)
    ensures ConfigFromRecord(row).Some? <==>
            row.e164 != "" && row.deployment.srtp in {"", "disabled", "optional", "mandatory"} &&
            row.deployment.transport in {"", "udp", "tls"} &&
            (row.deployment.transport == "tls" ==> row.deployment.tlsCaFile != "" || row.deployment.tlsInsecure)
    ensures ConfigFromRecord(row).Some? ==>
              var c, d := ConfigFromRecord(row).value, row.deployment;
              c.e164 == row.e164 && c.version == row.version &&
              c.deployment.(srtp := d.srtp, transport := d.transport, sipHost := d.sipHost) == d &&
              c.deployment.srtp == (if d.srtp == "" then "disabled" else d.srtp) &&
              c.deployment.transport == (if d.transport == "" then "udp" else d.transport) &&
              c.deployment.sipHost ==
              (if d.transport == "tls" && d.sipHost != "" && ':' !in d.sipHost then d.sipHost + ":5061" else d.sipHost)
    ensures ConfigFromRecord(row).Some? ==>
              ConfigFromRecord(row.(deployment := ConfigFromRecord(row).value.deployment)) == ConfigFromRecord(row)
  {
    if ConfigFromRecord(row).Some? {
      var c := ConfigFromRecord(row).value;
      assert "disabled" != "" && "udp" != "";
      if c.deployment.sipHost != row.deployment.sipHost {
        assert c.deployment.sipHost[|row.deployment.sipHost|] == ':';
      }
    }
  }

  type Rows = map<Name, Row>

  /** UPDATE account ... config_version = config_version + 1; false is the exception for a missing
      row. */
  function ConfigSaved(rows: Rows, name: Name, d: Deployment, enabled: bool): (Rows, bool) {
    if name in rows then
      (rows[name := rows[name].(deployment := d, enabled := enabled, version := rows[name].version + 1)], true)
    else (rows, false)
  }

  /** INSERT ... ON CONFLICT DO UPDATE of the identity columns, of which the configuration sees e164. */
  function IdentitySaved(rows: Rows, name: Name, e164: string): Rows {
    if name in rows then rows[name := rows[name].(e164 := e164)]
    else rows[name := Row(e164, DefaultDeployment(), true, 0)]
  }

  /** DaemonConfig::load, as far as the accounts go. */
  function Wanted(rows: Rows): map<Name, Config> {
    map n | n in rows && rows[n].enabled && ConfigFromRecord(rows[n]).Some? :: ConfigFromRecord(rows[n]).value
  }

  /** A running account: the configuration it was set up with, and which set-up that was. */
  datatype Instance = Instance(config: Config, birth: nat)

  /** reloadConfig leaves it alone. */
  predicate UpToDate(running: map<Name, Instance>, wanted: map<Name, Config>, n: Name) {
    n in running && n in wanted && running[n].config.version == wanted[n].version
  }

  /** What a reload does: an account of the same version is the same instance as before; every other
      wanted account is a new instance with the wanted configuration, or absent if its set-up failed;
      nothing else runs. */
  ghost predicate Reloads(
    before: map<Name, Instance>, wanted: map<Name, Config>, works: set<Name>, births: nat, after: map<Name, Instance>)
  {
    forall n :: Reloaded(before, wanted, works, births, after, n)
  }

  predicate Reloaded(
    before: map<Name, Instance>, wanted: map<Name, Config>, works: set<Name>, births: nat, after: map<Name, Instance>,
    n: Name)
  {
    if UpToDate(before, wanted, n) then n in after && after[n] == before[n]
    else
      (n in after <==> n in wanted && n in works) &&
      (n in after ==> after[n].config == wanted[n] && after[n].birth >= births)
  }

  predicate SameAt(a: map<Name, Instance>, b: map<Name, Instance>, n: Name) {
    (n in a <==> n in b) && (n in a ==> a[n] == b[n])
  }

  /** Helper: Reloads leaves no choice as far as configurations go. */
  lemma ReloadsDetermined(before: map<Name, Instance>, wanted: map<Name, Config>, works: set<Name>, births: nat,
                          a: map<Name, Instance>, b: map<Name, Instance>, n: Name)
    requires Reloads(before, wanted, works, births, a) && Reloads(before, wanted, works, births, b)
    ensures n in a <==> n in b
    ensures n in a ==> a[n].config == b[n].config
  {
    assert Reloaded(before, wanted, works, births, a, n) && Reloaded(before, wanted, works, births, b, n);
  }

  /** After a reload an account runs the wanted configuration, unless one of the same version but
      another content was running: exactly then it keeps the stale one. */
  lemma StaleIff(before: map<Name, Instance>, wanted: map<Name, Config>, works: set<Name>, births: nat,
                 after: map<Name, Instance>, n: Name)
    requires Reloads(before, wanted, works, births, after) && n in after
    ensures n in wanted
    ensures after[n].config != wanted[n] <==>
            n in before && before[n].config.version == wanted[n].version && before[n].config != wanted[n]
  {
    assert Reloaded(before, wanted, works, births, after, n);
  }
}

module ConfigHistory {
  import opened Bytes
  import opened AccountConfigs

  datatype State = State(rows: Rows, running: map<Name, Instance>, births: nat)

  /** What gendb and the daemon do, in any order. works are the accounts whose set-up succeeds; after
      is what the reload leaves running. */
  datatype Step =
    | SaveConfig(name: Name, deployment: Deployment, enabled: bool)
    | SaveIdentity(name: Name, e164: string)
    | Delete(name: Name)
    | FailedReload
    | Reload(works: set<Name>, after: map<Name, Instance>, births: nat)

  function Init(): State { State(map[], map[], 0) }

  ghost predicate Enabled(s: State, step: Step) {
    step.Reload? ==> Reloads(s.running, Wanted(s.rows), step.works, s.births, step.after) && step.births >= s.births
  }

  function Apply(s: State, step: Step): State {
    match step
    case SaveConfig(n, d, enabled) => s.(rows := ConfigSaved(s.rows, n, d, enabled).0)
    case SaveIdentity(n, e164) => s.(rows := IdentitySaved(s.rows, n, e164))
    case Delete(n) => s.(rows := s.rows - {n})
    case FailedReload => s
    case Reload(_, after, births) => s.(running := after, births := births)
  }

  function Then(s: State, steps: seq<Step>): State
    decreases |steps|
  {
    if steps == [] then s else Then(Apply(s, steps[0]), steps[1..])
  }

  ghost predicate Run(s: State, steps: seq<Step>)
    decreases |steps|
  {
    steps == [] || (Enabled(s, steps[0]) && Run(Apply(s, steps[0]), steps[1..]))
  }

  lemma {:induction false} RunThenRun(s: State, a: seq<Step>, b: seq<Step>)
    ensures Run(s, a + b) <==> Run(s, a) && Run(Then(s, a), b)
    ensures Then(s, a + b) == Then(Then(s, a), b)
    decreases |a|
  {
    hide Apply, Enabled;
    if a == [] {
      assert a + b == b;
    } else {
      RunThenRun(Apply(s, a[0]), a[1..], b);
      assert (a + b)[1..] == a[1..] + b;
    }
  }

  /** Keeps the version honest. Only saving an identity for a running account can fail to: to be honest
      it must not give the row of that account's version another number, and a row created anew must be
      the very row, of version 0, that the account was set up with. */
  predicate Honest(s: State, step: Step) {
    step.SaveIdentity? && step.name in s.running ==>
      var n, config := step.name, s.running[step.name].config;
      if n in s.rows then config.version < s.rows[n].version || step.e164 in {"", config.e164}
      else
        step.e164 in {"", config.e164} &&
        ConfigFromRecord(Row(config.e164, DefaultDeployment(), true, 0)) == Some(config)
  }

  ghost predicate HonestRun(s: State, steps: seq<Step>)
    decreases |steps|
  {
    steps == [] ||
    (Enabled(s, steps[0]) && Honest(s, steps[0]) && HonestRun(Apply(s, steps[0]), steps[1..]))
  }

  /** A running configuration is not ahead of its row, and a row of the same version still says what the
      account was set up with, unless it lacks the number. */
  predicate Faithful(config: Config, row: Row) {
    config.version <= row.version &&
    (config.version == row.version ==>
       row.enabled && row.e164 in {"", config.e164} &&
       ConfigFromRecord(row.(e164 := config.e164)) == Some(config))
  }

  ghost predicate VersionsHonest(s: State) {
    (forall n | n in s.running :: s.running[n].config.e164 != "") &&
    forall n | n in s.running && n in s.rows :: Faithful(s.running[n].config, s.rows[n])
  }

  lemma FaithfulConfig(config: Config, row: Row)
    requires config.version == row.version && ConfigFromRecord(row).Some? && Faithful(config, row)
    ensures config == ConfigFromRecord(row).value
  {
    assert row.(e164 := row.e164) == row;
  }

  lemma FaithfulStart(row: Row)
    requires row.enabled && ConfigFromRecord(row).Some?
    ensures Faithful(ConfigFromRecord(row).value, row) && ConfigFromRecord(row).value.e164 != ""
    ensures ConfigFromRecord(row).value.version == row.version
  {
    assert row.(e164 := row.e164) == row;
  }

  lemma StepKeepsVersions(s: State, step: Step)
    requires VersionsHonest(s) && Enabled(s, step) && Honest(s, step)
    ensures VersionsHonest(Apply(s, step))
  {
    hide ConfigFromRecord;
    var t := Apply(s, step);
    forall n | n in t.running
      ensures t.running[n].config.e164 != ""
      ensures n in t.rows ==> Faithful(t.running[n].config, t.rows[n])
    {
      if step.Reload? {
        assert Reloaded(s.running, Wanted(s.rows), step.works, s.births, t.running, n);
        if !UpToDate(s.running, Wanted(s.rows), n) {
          FaithfulStart(s.rows[n]);
        }
      } else if step.SaveIdentity? && n == step.name && n in s.rows {
        var e := s.running[n].config.e164;
        assert t.rows[n].(e164 := e) == s.rows[n].(e164 := e);
      } else if step.SaveIdentity? && n == step.name {
        var config := s.running[n].config;
        ConfigNamesRow(Row(config.e164, DefaultDeployment(), true, 0));
        assert t.rows[n].(e164 := config.e164) == Row(config.e164, DefaultDeployment(), true, 0);
      }
    }
  }

  lemma {:induction false} RunKeepsVersions(s: State, steps: seq<Step>)
    requires VersionsHonest(s) && HonestRun(s, steps)
    ensures VersionsHonest(Then(s, steps))
    decreases |steps|
  {
    hide Apply, Enabled, Honest, VersionsHonest;
    if steps != [] {
      StepKeepsVersions(s, steps[0]);
      RunKeepsVersions(Apply(s, steps[0]), steps[1..]);
    }
  }

  /** In every honest history equal versions mean equal configurations. */
  lemma EqualVersionsEqualConfigs(steps: seq<Step>, n: Name)
    requires HonestRun(Init(), steps)
    requires var s := Then(Init(), steps);
             n in s.running && n in s.rows && ConfigFromRecord(s.rows[n]).Some? &&
             s.running[n].config.version == s.rows[n].version
    ensures var s := Then(Init(), steps); s.running[n].config == ConfigFromRecord(s.rows[n]).value
  {
    hide ConfigFromRecord, Apply, Enabled, Honest, Then, HonestRun, Faithful;
    RunKeepsVersions(Init(), steps);
    var s := Then(Init(), steps);
    FaithfulConfig(s.running[n].config, s.rows[n]);
  }

  /** n runs, its row is wanted, and it says something else. */
  predicate Stale(s: State, n: Name) {
    n in s.running && n in Wanted(s.rows) && s.running[n].config != Wanted(s.rows)[n]
  }

  lemma ReloadFromHonest(s: State, reload: Step, n: Name)
    requires VersionsHonest(s) && reload.Reload? && Enabled(s, reload)
    ensures var t := Apply(s, reload);
            (n in t.running ==> n in Wanted(s.rows) && t.running[n].config == Wanted(s.rows)[n]) &&
            (n in Wanted(s.rows) && n !in t.running ==> n !in reload.works) &&
            (n in s.running && n in Wanted(s.rows) && s.running[n].config == Wanted(s.rows)[n] ==>
               n in t.running && t.running[n] == s.running[n])
  {
    hide ConfigFromRecord, Faithful;
    assert Reloaded(s.running, Wanted(s.rows), reload.works, s.births, reload.after, n);
    if n in Wanted(s.rows) {
      FaithfulStart(s.rows[n]);
      if n in s.running && s.running[n].config.version == s.rows[n].version {
        FaithfulConfig(s.running[n].config, s.rows[n]);
      }
    }
  }

  /** So a reload leaves an account running only if its row wants it, with the row's configuration, and
      leaves a wanted account out only if its set-up failed; the ones already up to date are the very
      instances that ran before. */
  lemma ReloadMakesCurrent(steps: seq<Step>, reload: Step, n: Name)
    requires HonestRun(Init(), steps) && reload.Reload? && Enabled(Then(Init(), steps), reload)
    ensures var s, t := Then(Init(), steps), Apply(Then(Init(), steps), reload);
            (n in t.running ==> n in Wanted(s.rows) && t.running[n].config == Wanted(s.rows)[n]) &&
            (n in Wanted(s.rows) && n !in t.running ==> n !in reload.works) &&
            (n in s.running && n in Wanted(s.rows) && s.running[n].config == Wanted(s.rows)[n] ==>
               n in t.running && t.running[n] == s.running[n])
  {
    hide Apply, Enabled, Then, HonestRun, VersionsHonest, Wanted;
    InitHonest();
    RunKeepsVersions(Init(), steps);
    ReloadFromHonest(Then(Init(), steps), reload, n);
  }

  lemma InitHonest()
    ensures VersionsHonest(Init())
  {
  }

  /** A saved configuration is in force after the next reload: the account runs if and only if it was
      saved as enabled, the row is valid and the set-up succeeds, and then with what was saved. */
  lemma SaveTakesEffect(steps: seq<Step>, n: Name, d: Deployment, enabled: bool, reload: Step)
    requires HonestRun(Init(), steps) && n in Then(Init(), steps).rows
    requires reload.Reload? && Enabled(Apply(Then(Init(), steps), SaveConfig(n, d, enabled)), reload)
    ensures var row := Then(Init(), steps).rows[n]; var saved := ConfigFromRecord(Row(row.e164, d, true, row.version + 1));
            var t := Apply(Apply(Then(Init(), steps), SaveConfig(n, d, enabled)), reload);
            (n in t.running <==> enabled && saved.Some? && n in reload.works) &&
            (n in t.running ==> Some(t.running[n].config) == saved)
  {
    hide Then, HonestRun, ConfigFromRecord, Honest;
    InitHonest();
    RunKeepsVersions(Init(), steps);
    var s := Then(Init(), steps);
    var u := Apply(s, SaveConfig(n, d, enabled));
    assert u.rows[n] == Row(s.rows[n].e164, d, enabled, s.rows[n].version + 1);
    ConfigNamesRow(u.rows[n]);
    assert n in s.running ==> s.running[n].config.version <= s.rows[n].version;
    assert Reloaded(u.running, Wanted(u.rows), reload.works, u.births, reload.after, n);
    EnabledIsNoConfig(u.rows[n]);
  }

  lemma EnabledIsNoConfig(row: Row)
    ensures ConfigFromRecord(row) == ConfigFromRecord(row.(enabled := true))
  {
  }

  // What the version does not see.

  /** A reload in which every set-up succeeds. */
  function FullReload(s: State): (step: Step)
    ensures step.Reload? && Enabled(s, step)
  {
    var wanted := Wanted(s.rows);
    Reload(wanted.Keys,
           map n | n in wanted :: if UpToDate(s.running, wanted, n) then s.running[n] else Instance(wanted[n], s.births),
           s.births + 1)
  }

  /** A reload leaves an account alone, stale or not, whose row has come to the running version. */
  lemma SameVersionUnseen(s: State, n: Name, reload: Step)
    requires n in s.running && n in Wanted(s.rows) && s.running[n].config.version == s.rows[n].version
    requires reload.Reload? && Enabled(s, reload)
    ensures var t := Apply(s, reload);
            n in t.running && t.running[n] == s.running[n] &&
            (Stale(t, n) <==> Some(s.running[n].config) != ConfigFromRecord(s.rows[n]))
  {
    ConfigNamesRow(s.rows[n]);
    hide ConfigFromRecord;
    assert Reloaded(s.running, Wanted(s.rows), reload.works, s.births, reload.after, n);
  }

  lemma ConfigNamesRow(row: Row)
    ensures ConfigFromRecord(row).Some? ==> ConfigFromRecord(row).value.version == row.version
    ensures ConfigFromRecord(row).Some? ==> ConfigFromRecord(row).value.e164 == row.e164
  {
  }

  /** Not a property of the version alone: saving another number for an existing account does not bump
      it, so a reload leaves the account running with the old number. */
  lemma IdentityResaveUnseen(s: State, n: Name, e164: string, reload: Step)
    requires n in s.running && n in s.rows && s.rows[n].enabled
    requires Some(s.running[n].config) == ConfigFromRecord(s.rows[n])
    requires e164 != "" && reload.Reload? && Enabled(Apply(s, SaveIdentity(n, e164)), reload)
    ensures var u := Apply(s, SaveIdentity(n, e164)); var t := Apply(u, reload);
            n in Wanted(u.rows) && n in t.running && t.running[n] == s.running[n] &&
            (Stale(t, n) <==> e164 != s.rows[n].e164)
  {
    var u := Apply(s, SaveIdentity(n, e164));
    assert u.rows[n] == s.rows[n].(e164 := e164);
    SameVersionUnseen(u, n, reload);
  }

  function Saves(n: Name, ds: seq<Deployment>): (r: seq<Step>)
    ensures |r| == |ds|
  {
    seq(|ds|, i requires 0 <= i < |ds| => SaveConfig(n, ds[i], true))
  }

  function LastOf(ds: seq<Deployment>, otherwise: Deployment): Deployment {
    if ds == [] then otherwise else ds[|ds| - 1]
  }

  lemma {:induction false} ThenSaves(s: State, n: Name, ds: seq<Deployment>)
    requires n in s.rows && (ds == [] ==> s.rows[n].enabled)
    ensures Then(s, Saves(n, ds)) ==
            s.(rows := s.rows[n := Row(s.rows[n].e164, LastOf(ds, s.rows[n].deployment), true, s.rows[n].version + |ds|)])
    ensures HonestRun(s, Saves(n, ds)) && Run(s, Saves(n, ds))
    decreases |ds|
  {
    if ds == [] {
      assert s.rows[n := s.rows[n]] == s.rows;
    } else {
      var t := Apply(s, SaveConfig(n, ds[0], true));
      assert Saves(n, ds)[1..] == Saves(n, ds[1..]);
      ThenSaves(t, n, ds[1..]);
      assert t.rows[n := Row(s.rows[n].e164, LastOf(ds, s.rows[n].deployment), true, s.rows[n].version + |ds|)]
          == s.rows[n := Row(s.rows[n].e164, LastOf(ds, s.rows[n].deployment), true, s.rows[n].version + |ds|)];
    }
  }

  /** The row n deleted, created again and saved. */
  function Recreated(s: State, n: Name, e164: string, ds: seq<Deployment>): State {
    Then(Apply(Apply(s, Delete(n)), SaveIdentity(n, e164)), Saves(n, ds))
  }

  /** Nor when a row is deleted and created again before a reload: the counter starts over, and once as
      many saves as the running version have brought it back, the account is not rebuilt. It is stale
      unless the new row says exactly what it was set up with. */
  lemma RecreatedRowUnseen(s: State, n: Name, e164: string, ds: seq<Deployment>, reload: Step)
    requires n in s.running && s.running[n].config.version == |ds|
    requires ConfigFromRecord(Row(e164, LastOf(ds, DefaultDeployment()), true, |ds|)).Some?
    requires reload.Reload? && Enabled(Recreated(s, n, e164, ds), reload)
    ensures var u := Recreated(s, n, e164, ds); var t := Apply(u, reload);
            n in Wanted(u.rows) && n in t.running && t.running[n] == s.running[n] &&
            (Stale(t, n) <==>
             Some(s.running[n].config) != ConfigFromRecord(Row(e164, LastOf(ds, DefaultDeployment()), true, |ds|)))
  {
    var v := Apply(Apply(s, Delete(n)), SaveIdentity(n, e164));
    assert v.rows[n] == Row(e164, DefaultDeployment(), true, 0);
    ThenSaves(v, n, ds);
    hide ConfigFromRecord;
    SameVersionUnseen(Recreated(s, n, e164, ds), n, reload);
  }

  // Honesty is the exact condition.

  /** The last step is a reload, after which nothing runs that its row does not say. */
  ghost predicate EndsCurrent(s: State, rest: seq<Step>) {
    rest != [] && rest[|rest| - 1].Reload? ==> forall n :: !Stale(Then(s, rest), n)
  }

  lemma {:induction false} HonestEndsCurrent(s: State, rest: seq<Step>)
    requires VersionsHonest(s) && HonestRun(s, rest)
    ensures EndsCurrent(s, rest)
    decreases |rest|
  {
    if |rest| == 1 {
      if rest[0].Reload? {
        forall n ensures !Stale(Then(s, rest), n) { ReloadFromHonest(s, rest[0], n); }
      }
    } else if |rest| > 1 {
      StepKeepsVersions(s, rest[0]);
      HonestEndsCurrent(Apply(s, rest[0]), rest[1..]);
    }
  }

  /** A dishonest step can be followed by honest ones so that a reload leaves the account stale. */
  lemma DishonestGoesStale(s: State, step: Step) returns (rest: seq<Step>)
    requires VersionsHonest(s) && Enabled(s, step) && !Honest(s, step)
    ensures HonestRun(Apply(s, step), rest) && Run(Apply(s, step), rest)
    ensures rest != [] && rest[|rest| - 1].Reload? && Stale(Then(Apply(s, step), rest), step.name)
  {
    var n, u := step.name, Apply(s, step);
    var config := s.running[n].config;
    if n in s.rows {
      assert u.rows[n] == s.rows[n].(e164 := step.e164);
      NumberOnly(s.rows[n].(e164 := config.e164), step.e164);
      rest := StaleByReload(u, n);
    } else if config.version == 0 && step.e164 !in {"", config.e164} {
      DefaultIsValid(step.e164, 0);
      rest := StaleByReload(u, n);
    } else {
      rest := RecreatedGoesStale(u, n, step.e164);
    }
  }

  /** Give a new row a number if it has none, and as many saves as the running version, the last with a
      server that the account was not set up with. */
  lemma RecreatedGoesStale(u: State, n: Name, e164: string) returns (rest: seq<Step>)
    requires n in u.running && u.running[n].config.e164 != ""
    requires n in u.rows && u.rows[n] == Row(e164, DefaultDeployment(), true, 0)
    requires var config := u.running[n].config;
             config.version == 0 ==> e164 in {"", config.e164} &&
                                     ConfigFromRecord(Row(config.e164, DefaultDeployment(), true, 0)) != Some(config)
    ensures HonestRun(u, rest) && Run(u, rest)
    ensures rest != [] && rest[|rest| - 1].Reload? && Stale(Then(u, rest), n)
  {
    hide ConfigFromRecord, Honest, Enabled;
    var config := u.running[n].config;
    var first := NumberGiven(u, n);
    var v := Then(u, first);
    var other := DefaultDeployment().(serverUrl := config.deployment.serverUrl + "x");
    var ds := seq(config.version, _ => other);
    ThenSaves(v, n, ds);
    var w := Then(v, Saves(n, ds));
    OtherServer(config, v.rows[n].e164, ds);
    var last := StaleByReload(w, n);
    hide Apply, Then, HonestRun, Run, Stale, Saves;
    HonestThenHonest(v, Saves(n, ds), last);
    RunThenRun(v, Saves(n, ds), last);
    HonestThenHonest(u, first, Saves(n, ds) + last);
    RunThenRun(u, first, Saves(n, ds) + last);
    rest := first + (Saves(n, ds) + last);
  }

  lemma NumberGiven(u: State, n: Name) returns (first: seq<Step>)
    requires n in u.running && u.running[n].config.e164 != "" && n in u.rows && u.rows[n].version == 0
    ensures HonestRun(u, first) && Run(u, first)
    ensures var row := u.rows[n];
            Then(u, first) == u.(rows := u.rows[n := if row.e164 == "" then row.(e164 := u.running[n].config.e164) else row])
  {
    if u.rows[n].e164 == "" {
      first := [SaveIdentity(n, u.running[n].config.e164)];
      assert first[1..] == [];
    } else {
      first := [];
      assert u.rows[n := u.rows[n]] == u.rows;
    }
  }

  lemma NumberOnly(row: Row, e164: string)
    requires ConfigFromRecord(row).Some? && e164 != ""
    ensures ConfigFromRecord(row.(e164 := e164)) == Some(ConfigFromRecord(row).value.(e164 := e164))
  {
  }

  lemma DefaultIsValid(e164: string, version: nat)
    requires e164 != ""
    ensures ConfigFromRecord(Row(e164, DefaultDeployment(), true, version)).Some?
    ensures ConfigFromRecord(Row(e164, DefaultDeployment(), true, version)).value.e164 == e164
  {
  }

  lemma OtherServer(config: Config, e164: string, ds: seq<Deployment>)
    requires e164 != "" && |ds| == config.version
    requires forall d | d in ds :: d == DefaultDeployment().(serverUrl := config.deployment.serverUrl + "x")
    requires ds == [] ==> ConfigFromRecord(Row(config.e164, DefaultDeployment(), true, 0)) != Some(config)
    requires ds == [] ==> e164 == config.e164
    ensures var c := ConfigFromRecord(Row(e164, LastOf(ds, DefaultDeployment()), true, |ds|));
            c.Some? && c != Some(config)
  {
    DefaultIsValid(e164, 0);
    if ds != [] {
      var d := ds[|ds| - 1];
      assert d in ds;
      assert |d.serverUrl| == |config.deployment.serverUrl| + 1;
    }
  }

  lemma StaleByReload(s: State, n: Name) returns (rest: seq<Step>)
    requires n in s.running && n in s.rows && s.rows[n].enabled && s.running[n].config.version == s.rows[n].version
    requires ConfigFromRecord(s.rows[n]).Some? && ConfigFromRecord(s.rows[n]) != Some(s.running[n].config)
    ensures HonestRun(s, rest) && Run(s, rest)
    ensures rest != [] && rest[|rest| - 1].Reload? && Stale(Then(s, rest), n)
  {
    var reload := FullReload(s);
    rest := [reload];
    assert rest[1..] == [];
    hide ConfigFromRecord, FullReload;
    SameVersionUnseen(s, n, reload);
  }

  lemma {:induction false} HonestThenHonest(s: State, a: seq<Step>, b: seq<Step>)
    requires HonestRun(s, a) && HonestRun(Then(s, a), b)
    ensures HonestRun(s, a + b)
    decreases |a|
  {
    hide Apply, Enabled, Honest;
    if a == [] {
      assert a + b == b;
    } else {
      HonestThenHonest(Apply(s, a[0]), a[1..], b);
      assert (a + b)[1..] == a[1..] + b;
    }
  }

  /** A step is honest if and only if no honest continuation ends with a reload that leaves an account
      stale. */
  lemma HonestIff(s: State, step: Step)
    requires VersionsHonest(s) && Enabled(s, step)
    ensures Honest(s, step) <==>
            forall rest: seq<Step> | HonestRun(Apply(s, step), rest) :: EndsCurrent(Apply(s, step), rest)
  {
    if Honest(s, step) {
      StepKeepsVersions(s, step);
      forall rest: seq<Step> | HonestRun(Apply(s, step), rest) ensures EndsCurrent(Apply(s, step), rest) {
        HonestEndsCurrent(Apply(s, step), rest);
      }
    } else {
      var rest := DishonestGoesStale(s, step);
      assert !EndsCurrent(Apply(s, step), rest);
    }
  }

  lemma {:induction false} HonestIsRun(s: State, steps: seq<Step>)
    requires HonestRun(s, steps)
    ensures Run(s, steps)
    decreases |steps|
  {
    hide Apply, Enabled, Honest;
    if steps != [] {
      HonestIsRun(Apply(s, steps[0]), steps[1..]);
    }
  }

  /** Every history that was honest up to a dishonest step has a continuation that ends with a stale
      account. */
  lemma DishonestHistory(front: seq<Step>, step: Step) returns (steps: seq<Step>)
    requires HonestRun(Init(), front) && Enabled(Then(Init(), front), step) && !Honest(Then(Init(), front), step)
    ensures front + [step] <= steps && Run(Init(), steps) && steps[|steps| - 1].Reload?
    ensures Stale(Then(Init(), steps), step.name)
  {
    hide Apply, Enabled, Honest, VersionsHonest, Stale;
    InitHonest();
    RunKeepsVersions(Init(), front);
    HonestIsRun(Init(), front);
    var s := Then(Init(), front);
    var rest := DishonestGoesStale(s, step);
    assert ([step] + rest)[0] == step && ([step] + rest)[1..] == rest;
    RunThenRun(Init(), front, [step] + rest);
    steps := front + ([step] + rest);
    assert steps[|front|] == step && steps == (front + [step]) + rest;
  }

  /** There are such histories: one in which a running account's number is saved anew, ... */
  lemma ResaveReachesStale() returns (steps: seq<Step>)
    ensures Run(Init(), steps) && Stale(Then(Init(), steps), 0)
    ensures SaveIdentity(0, "2") in steps
  {
    var created := SaveIdentity(0, "1");
    var s := Apply(Init(), created);
    assert s.rows[0] == Row("1", DefaultDeployment(), true, 0);
    DefaultIsValid("1", 0);
    ConfigNamesRow(s.rows[0]);
    var front := Honestly(Init(), [], created);
    front := Honestly(Init(), front, FullReload(s));
    steps := DishonestHistory(front, SaveIdentity(0, "2"));
    assert (front + [SaveIdentity(0, "2")])[|front|] == SaveIdentity(0, "2");
  }

  /** One more honest step. */
  lemma Honestly(s: State, steps: seq<Step>, step: Step) returns (longer: seq<Step>)
    requires HonestRun(s, steps) && Enabled(Then(s, steps), step) && Honest(Then(s, steps), step)
    ensures longer == steps + [step] && HonestRun(s, longer) && Then(s, longer) == Apply(Then(s, steps), step)
  {
    longer := steps + [step];
    assert [step][1..] == [];
    hide Honest, Enabled, Apply;
    assert HonestRun(Then(s, steps), [step]);
    HonestThenHonest(s, steps, [step]);
    RunThenRun(s, steps, [step]);
  }

  /** ... and one in which a running account's row is deleted and created again. */
  lemma RecreationReachesStale() returns (steps: seq<Step>)
    ensures Run(Init(), steps) && Stale(Then(Init(), steps), 0)
    ensures Delete(0) in steps
  {
    var created, saved := SaveIdentity(0, "1"), SaveConfig(0, DefaultDeployment(), true);
    var s := Apply(Apply(Init(), created), saved);
    assert s.rows[0] == Row("1", DefaultDeployment(), true, 1);
    DefaultIsValid("1", 1);
    ConfigNamesRow(s.rows[0]);
    var front := Honestly(Init(), [], created);
    front := Honestly(Init(), front, saved);
    front := Honestly(Init(), front, FullReload(s));
    ghost var k := |front|;
    front := Honestly(Init(), front, Delete(0));
    HonestlyRecreatable(Then(Init(), front).running[0].config);
    steps := DishonestHistory(front, SaveIdentity(0, "1"));
    assert (front + [SaveIdentity(0, "1")])[k] == Delete(0);
  }

  /** No row of version 0 is the one that a configuration of a later version was set up with. */
  lemma HonestlyRecreatable(config: Config)
    ensures ConfigFromRecord(Row(config.e164, DefaultDeployment(), true, 0)) == Some(config) ==> config.version == 0
  {
    ConfigNamesRow(Row(config.e164, DefaultDeployment(), true, 0));
  }
}

/** The objects. */
module ConfigReload {
  import opened Bytes
  import opened AccountConfigs

  /** The account table behind Storage. */
  class AccountTable {
    var rows: Rows

    constructor ()
      ensures rows == map[]
    {
      rows := map[];
    }

    method SaveAccountConfig(name: Name, d: Deployment, enabled: bool) returns (ok: bool)
      modifies this
      ensures (rows, ok) == ConfigSaved(old(rows), name, d, enabled)
    {
      if name !in rows {
        return false;
      }
      var row := rows[name];
      rows := rows[name := Row(row.e164, d, enabled, row.version + 1)];
      return true;
    }

    method SaveAccount(name: Name, e164: string)
      modifies this
      ensures rows == IdentitySaved(old(rows), name, e164)
    {
      if name in rows {
        rows := rows[name := rows[name].(e164 := e164)];
      } else {
        rows := rows[name := Row(e164, DefaultDeployment(), true, 0)];
      }
    }
  }

  /** The first key of a std::map that is at least from. */
  method LowerBound(keys: set<Name>, from: Name) returns (it: Option<Name>)
    ensures it == None ==> forall k | k in keys :: k < from
    ensures it.Some? ==> it.value in keys && it.value >= from
    ensures it.Some? ==> forall k | k in keys :: k < from || it.value <= k
  {
    it := None;
    var rest := keys;
    while rest != {}
      invariant rest <= keys
      invariant it == None ==> forall k | k in keys && k !in rest :: k < from
      invariant it.Some? ==> it.value in keys && it.value >= from
      invariant it.Some? ==> forall k | k in keys && k !in rest :: k < from || it.value <= k
      decreases |rest|
    {
      var k :| k in rest;
      if k >= from && (it == None || k < it.value) {
        it := Some(k);
      }
      rest := rest - {k};
    }
  }

  class Daemon {
    /** g_accounts, and how many set-ups there have been. */
    var accounts: map<Name, Instance>
    var births: nat

    constructor ()
      ensures accounts == map[] && births == 0
    {
      accounts, births := map[], 0;
    }

    method TeardownAccount(name: Name)
      modifies this
      ensures accounts == old(accounts) - {name} && births == old(births)
    {
      if name in accounts {
        accounts := accounts - {name};
      }
    }

    /** works is whether everything between creating the entry and returning true succeeds; on failure
        the entry is erased again. */
    method SetupAccount(name: Name, config: Config, works: bool) returns (ok: bool)
      requires name !in accounts
      modifies this
      ensures ok == works && births == old(births) + 1
      ensures accounts == if works then old(accounts)[name := Instance(config, old(births))] else old(accounts)
    {
      accounts := accounts[name := Instance(config, births)];
      births := births + 1;
      if !works {
        accounts := accounts - {name};
      }
      return works;
    }

    /** The first loop: the iterator moves on before the entry it stood on is erased. */
    method RemoveUnwanted(wanted: map<Name, Config>)
      modifies this
      ensures births == old(births)
      ensures accounts == map n | n in old(accounts) && n in wanted :: old(accounts)[n]
    {
      var it := LowerBound(accounts.Keys, 0);
      ghost var left := accounts.Keys;
      while it.Some?
        invariant births == old(births)
        invariant it.Some? ==> it.value in accounts && it.value in left
        invariant forall n | n in accounts :: n in old(accounts) && accounts[n] == old(accounts)[n]
        invariant forall n | n in old(accounts) && n in wanted :: n in accounts
        invariant forall n | n in accounts :: n in wanted || (it.Some? && n >= it.value)
        invariant forall n | n in accounts && it.Some? && n >= it.value :: n in left
        decreases |left|
      {
        var name := it.value;
        it := LowerBound(accounts.Keys, name + 1);
        if name !in wanted {
          TeardownAccount(name);
        }
        left := left - {name};
      }
    }

    /** The body of the second loop. */
    method SetUpChanged(name: Name, wanted: map<Name, Config>, works: set<Name>)
      requires name in wanted
      modifies this
      ensures Reloaded(old(accounts), wanted, works, old(births), accounts, name) && births >= old(births)
      ensures forall n | n != name :: SameAt(old(accounts), accounts, n)
    {
      if name !in accounts {
        var ok := SetupAccount(name, wanted[name], name in works);
      } else if accounts[name].config.version != wanted[name].version {
        TeardownAccount(name);
        var ok := SetupAccount(name, wanted[name], name in works);
      }
    }

    /** The second loop. */
    method SetUpWanted(wanted: map<Name, Config>, works: set<Name>)
      requires accounts.Keys <= wanted.Keys
      modifies this
      ensures Reloads(old(accounts), wanted, works, old(births), accounts) && births >= old(births)
    {
      var it := LowerBound(wanted.Keys, 0);
      ghost var left := wanted.Keys;
      while it.Some?
        invariant it.Some? ==> it.value in wanted && it.value in left
        invariant forall n | n in wanted && it.Some? && n >= it.value :: n in left
        invariant births >= old(births)
        invariant forall n | n !in wanted || (it.Some? && n >= it.value) :: SameAt(old(accounts), accounts, n)
        invariant forall n | n in wanted && (it == None || n < it.value) ::
                    Reloaded(old(accounts), wanted, works, old(births), accounts, n)
        decreases |left|
      {
        hide Reloaded, SameAt;
        var name := it.value;
        ghost var before, births0 := accounts, births;
        SetUpChanged(name, wanted, works);
        it := LowerBound(wanted.Keys, name + 1);
        Advance(old(accounts), before, accounts, wanted, works, old(births), births0, name);
        left := left - {name};
      }
      forall n ensures Reloaded(old(accounts), wanted, works, old(births), accounts, n) {
        if n !in wanted {
          assert SameAt(old(accounts), accounts, n);
        }
      }
    }

    lemma Advance(start: map<Name, Instance>, before: map<Name, Instance>, after: map<Name, Instance>,
                  wanted: map<Name, Config>, works: set<Name>, births: nat, births1: nat, name: Name)
      requires births <= births1
      requires Reloaded(before, wanted, works, births1, after, name) && SameAt(start, before, name)
      requires forall n | n != name :: SameAt(before, after, n)
      ensures Reloaded(start, wanted, works, births, after, name)
      ensures forall n | n != name && SameAt(start, before, n) :: SameAt(start, after, n)
      ensures forall n | n != name && Reloaded(start, wanted, works, births, before, n) ::
                Reloaded(start, wanted, works, births, after, n)
    {
      forall n | n != name && SameAt(start, before, n) ensures SameAt(start, after, n) {
        assert SameAt(before, after, n);
      }
      forall n | n != name && Reloaded(start, wanted, works, births, before, n)
        ensures Reloaded(start, wanted, works, births, after, n)
      {
        assert SameAt(before, after, n);
      }
    }

    /** reloadConfig; loaded is None where DaemonConfig::load throws. */
    method ReloadConfig(loaded: Option<map<Name, Config>>, works: set<Name>)
      modifies this
      ensures loaded == None ==> accounts == old(accounts) && births == old(births)
      ensures loaded.Some? ==>
                Reloads(old(accounts), loaded.value, works, old(births), accounts) && births >= old(births)
    {
      if loaded == None {
        return;
      }
      RemoveUnwanted(loaded.value);
      ghost var kept := accounts;
      SetUpWanted(loaded.value, works);
      forall n ensures Reloaded(old(accounts), loaded.value, works, old(births), accounts, n) {
        assert Reloaded(kept, loaded.value, works, old(births), accounts, n);
      }
    }
  }
}
