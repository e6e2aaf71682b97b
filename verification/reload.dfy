/** Re-reading the file under a frozen invocation: the gates, the partition of settings, and the report of drift. */
module Reloads {
  import opened Names
  import opened Configs

  datatype Code =
    | ShuttingDown | ReloadInProgress | ConfigReadFailed | ConfigParseFailed | ConfigInvalid
    | Internal | OriginChanged | ZoneBuildFailed

  datatype Key =
    | Origin | Udp | Tcp | AdminListen | TcpTimeout | ShutdownDrain
    | LogFormatKey | LogLevel | AdminToken | Qps | Burst

  /** In the order of the partition table; there are eleven and no more. */
  const FIXED_KEYS: seq<Key> := [Origin, Udp, Tcp, AdminListen, TcpTimeout, ShutdownDrain, LogFormatKey, LogLevel, AdminToken, Qps, Burst]

  /** What a reload is frozen over: the command line, how a spelling names a zone, and how many records a zone builds. */
  datatype World = World(
    invocation: GlobalArgs,
    canonical: string -> Option<Name>,
    build: ZoneSettings -> Option<nat>)

  predicate SameOrigin(w: World, left: string, right: string) {
    w.canonical(left).Some? && w.canonical(left) == w.canonical(right)
  }

  // -------------------------------------------------------------- the drift

  function QpsOf(c: Config): nat {
    if c.rateLimit.Some? then c.rateLimit.value.qps else 0
  }

  function BurstOf(c: Config): nat {
    if c.rateLimit.Some? then c.rateLimit.value.burst else 0
  }

  /** The file states the key, and states something this process is not doing. */
  predicate StatesOtherwise(w: World, key: Key, stated: FileSettings, running: Config) {
    match key
    case Origin => stated.origin.Some? && !SameOrigin(w, stated.origin.value, running.zone.origin)
    case Udp => stated.udp != [] && stated.udp != running.udp
    case Tcp => stated.tcp != [] && stated.tcp != running.tcp
    case AdminListen => stated.adminListen.Some? && stated.adminListen != running.adminListen
    case TcpTimeout => stated.tcpTimeout.Some? && stated.tcpTimeout.value != running.tcpTimeout
    case ShutdownDrain => stated.shutdownDrain.Some? && stated.shutdownDrain.value != running.shutdownDrain
    case LogFormatKey => stated.logFormat.Some? && stated.logFormat.value != running.logFormat
    case LogLevel => stated.logLevel.Some? && stated.logLevel.value != running.logLevel
    case AdminToken => stated.adminToken.Some? && stated.adminToken != running.adminToken
    case Qps => stated.qps.Some? && stated.qps.value != QpsOf(running)
    case Burst => stated.burst.Some? && stated.burst.value != BurstOf(running)
  }

  /** What a restart would now resolve differs from what is running. */
  predicate ResolvesOtherwise(w: World, key: Key, loaded: Config, running: Config) {
    match key
    case Origin => !SameOrigin(w, loaded.zone.origin, running.zone.origin)
    case Udp => loaded.udp != running.udp
    case Tcp => loaded.tcp != running.tcp
    case AdminListen => loaded.adminListen != running.adminListen
    case TcpTimeout => loaded.tcpTimeout != running.tcpTimeout
    case ShutdownDrain => loaded.shutdownDrain != running.shutdownDrain
    case LogFormatKey => loaded.logFormat != running.logFormat
    case LogLevel => loaded.logLevel != running.logLevel
    case AdminToken => loaded.adminToken != running.adminToken
    case Qps => QpsOf(loaded) != QpsOf(running)
    case Burst => BurstOf(loaded) != BurstOf(running)
  }

  predicate Drifts(w: World, key: Key, running: Config, stated: FileSettings, loaded: Config) {
    StatesOtherwise(w, key, stated, running) || ResolvesOtherwise(w, key, loaded, running)
  }

  function DriftAmong(w: World, keys: seq<Key>, running: Config, stated: FileSettings, loaded: Config): seq<Key> {
    if keys == [] then []
    else
      var key := keys[|keys| - 1];
      DriftAmong(w, keys[..|keys| - 1], running, stated, loaded) + if Drifts(w, key, running, stated, loaded) then [key] else []
  }

  function DriftOf(w: World, running: Config, stated: FileSettings, loaded: Config): seq<Key> {
    DriftAmong(w, FIXED_KEYS, running, stated, loaded)
  }

  lemma {:induction false} DriftMembers(w: World, keys: seq<Key>, running: Config, stated: FileSettings, loaded: Config)
    ensures forall key :: key in DriftAmong(w, keys, running, stated, loaded) <==> key in keys && Drifts(w, key, running, stated, loaded)
  {
    if keys != [] { DriftMembers(w, keys[..|keys| - 1], running, stated, loaded); }
  }

  lemma EveryKeyIsFixed(key: Key)
    ensures key in FIXED_KEYS
  {
    match key
    case Origin => assert FIXED_KEYS[0] == key;
    case Udp => assert FIXED_KEYS[1] == key;
    case Tcp => assert FIXED_KEYS[2] == key;
    case AdminListen => assert FIXED_KEYS[3] == key;
    case TcpTimeout => assert FIXED_KEYS[4] == key;
    case ShutdownDrain => assert FIXED_KEYS[5] == key;
    case LogFormatKey => assert FIXED_KEYS[6] == key;
    case LogLevel => assert FIXED_KEYS[7] == key;
    case AdminToken => assert FIXED_KEYS[8] == key;
    case Qps => assert FIXED_KEYS[9] == key;
    case Burst => assert FIXED_KEYS[10] == key;
  }

  /** A report of drift is empty exactly when no key drifts. */
  lemma QuietIffNoDrift(w: World, running: Config, stated: FileSettings, loaded: Config)
    ensures DriftOf(w, running, stated, loaded) == [] <==> forall key :: !Drifts(w, key, running, stated, loaded)
  {
    DriftMembers(w, FIXED_KEYS, running, stated, loaded);
    forall key: Key ensures key in FIXED_KEYS { EveryKeyIsFixed(key); }
    var report := DriftOf(w, running, stated, loaded);
    if report != [] { assert report[0] in report; }
  }

  /** A value stated in the file, that is not the one in use. */
  predicate Against<T(==)>(stated: Option<T>, running: T) {
    stated.Some? && stated.value != running
  }

  /** A list of listeners likewise; an empty list states nothing. */
  predicate AgainstList(stated: seq<SocketAddr>, running: seq<SocketAddr>) {
    stated != [] && stated != running
  }

  /** Two spellings that do not name one zone. */
  predicate OtherZone(w: World, a: string, b: string) {
    !(w.canonical(a).Some? && w.canonical(a) == w.canonical(b))
  }

  /** What a key of the report tells: the file says otherwise of it than what is in use, or a restart would. */
  predicate Differs(w: World, key: Key, running: Config, stated: FileSettings, loaded: Config) {
    match key
    case Origin =>
      (stated.origin.Some? && OtherZone(w, stated.origin.value, running.zone.origin)) || OtherZone(w, loaded.zone.origin, running.zone.origin)
    case Udp => AgainstList(stated.udp, running.udp) || loaded.udp != running.udp
    case Tcp => AgainstList(stated.tcp, running.tcp) || loaded.tcp != running.tcp
    case AdminListen => Against(Stating(stated.adminListen), running.adminListen) || loaded.adminListen != running.adminListen
    case TcpTimeout => Against(stated.tcpTimeout, running.tcpTimeout) || loaded.tcpTimeout != running.tcpTimeout
    case ShutdownDrain => Against(stated.shutdownDrain, running.shutdownDrain as int) || loaded.shutdownDrain != running.shutdownDrain
    case LogFormatKey => Against(stated.logFormat, running.logFormat) || loaded.logFormat != running.logFormat
    case LogLevel => Against(stated.logLevel, running.logLevel) || loaded.logLevel != running.logLevel
    case AdminToken => Against(Stating(stated.adminToken), running.adminToken) || loaded.adminToken != running.adminToken
    case Qps => Against(stated.qps, RateOf(running).qps) || RateOf(loaded).qps != RateOf(running).qps
    case Burst => Against(stated.burst, RateOf(running).burst) || RateOf(loaded).burst != RateOf(running).burst
  }

  lemma DriftsIsDiffers(w: World, key: Key, running: Config, stated: FileSettings, loaded: Config)
    ensures Drifts(w, key, running, stated, loaded) == Differs(w, key, running, stated, loaded)
  {
  }

  /** The report holds exactly the keys that differ, of all there are. */
  lemma ReportSays(w: World, running: Config, stated: FileSettings, loaded: Config, key: Key)
    ensures key in DriftOf(w, running, stated, loaded) <==> Differs(w, key, running, stated, loaded)
  {
    DriftMembers(w, FIXED_KEYS, running, stated, loaded);
    EveryKeyIsFixed(key);
    DriftsIsDiffers(w, key, running, stated, loaded);
  }

  /** A limiter that is off has no rate and no burst. */
  function RateOf(c: Config): RateLimit {
    match c.rateLimit case Some(limit) => limit case None => RateLimit(0, 0)
  }

  /** The place of a key in the partition table. */
  function Row(key: Key): nat {
    match key
    case Origin => 0
    case Udp => 1
    case Tcp => 2
    case AdminListen => 3
    case TcpTimeout => 4
    case ShutdownDrain => 5
    case LogFormatKey => 6
    case LogLevel => 7
    case AdminToken => 8
    case Qps => 9
    case Burst => 10
  }

  ghost predicate InTableOrder(report: seq<Key>, below: nat) {
    && (forall i, j | 0 <= i < j < |report| :: Row(report[i]) < Row(report[j]))
    && forall key | key in report :: Row(key) < below
  }

  /** Each key is reported once, and in the order of the table. */
  lemma {:induction false} ReportIsInOrder(w: World, n: nat, running: Config, stated: FileSettings, loaded: Config)
    requires n <= 11
    ensures InTableOrder(DriftAmong(w, FIXED_KEYS[..n], running, stated, loaded), n)
  {
    if n > 0 {
      ReportIsInOrder(w, n - 1, running, stated, loaded);
      assert FIXED_KEYS[..n][..n - 1] == FIXED_KEYS[..n - 1];
      assert Row(FIXED_KEYS[n - 1]) == n - 1;
    }
  }

  // -------------------------------------------------------------- the gates

  /** Only the reloadable half of the zone moves. */
  function ApplyReloadable(running: Config, loaded: Config): Config {
    running.(zone := loaded.zone.(origin := running.zone.origin))
  }

  datatype Accepted = Accepted(loaded: Config, stated: FileSettings, records: nat)

  /** Everything between the two drain checks: it reads the world and allocates privately. */
  function Judge(w: World, running: Config, read: FileRead): Result<Accepted, Code> {
    match Resolve(w.invocation, read)
    case Err(ReadFailed) => Err(ConfigReadFailed)
    case Err(ParseFailed) => Err(ConfigParseFailed)
    case Err(Invalid(_)) => Err(ConfigInvalid)
    case Ok(Resolved(loaded, stated)) =>
      if w.canonical(loaded.zone.origin).None? then Err(ConfigInvalid)
      else if w.canonical(running.zone.origin).None? then Err(Internal)
      else if w.canonical(loaded.zone.origin) != w.canonical(running.zone.origin) then Err(OriginChanged)
      else match w.build(loaded.zone)
        case None => Err(ZoneBuildFailed)
        case Some(records) => Ok(Accepted(loaded, stated, records))
  }

  /** What a reload is refused for, gate by gate, and what it goes on with when it is not. */
  lemma JudgeSays(w: World, running: Config, read: FileRead)
    ensures match Judge(w, running, read)
            case Err(ConfigReadFailed) => Resolve(w.invocation, read) == Err(ReadFailed)
            case Err(ConfigParseFailed) => Resolve(w.invocation, read) == Err(ParseFailed)
            case Err(ConfigInvalid) =>
              (match Resolve(w.invocation, read)
               case Err(e) => e.Invalid?
               case Ok(r) => w.canonical(r.config.zone.origin).None?)
            case Err(Internal) => Resolve(w.invocation, read).Ok? && w.canonical(running.zone.origin).None?
            case Err(OriginChanged) =>
              Resolve(w.invocation, read).Ok? && OtherZone(w, Resolve(w.invocation, read).value.config.zone.origin, running.zone.origin)
            case Err(ZoneBuildFailed) => Resolve(w.invocation, read).Ok? && w.build(Resolve(w.invocation, read).value.config.zone).None?
            case Err(_) => false
            case Ok(a) =>
              && Resolve(w.invocation, read) == Ok(Resolved(a.loaded, a.stated)) && w.build(a.loaded.zone) == Some(a.records)
              && !OtherZone(w, a.loaded.zone.origin, running.zone.origin)
  {
  }

  /** What a process serves with, fixed by the invocation it was started under. */
  predicate Serves(w: World, c: Config) {
    && Validated(c) && c.source == w.invocation.config && w.canonical(c.zone.origin).Some?
  }

  function AfterReload(w: World, running: Config, read: FileRead): Config {
    match Judge(w, running, read)
    case Err(_) => running
    case Ok(a) => ApplyReloadable(running, a.loaded)
  }

  function AfterReloads(w: World, running: Config, history: seq<FileRead>): Config {
    if history == [] then running
    else AfterReload(w, AfterReloads(w, running, history[..|history| - 1]), history[|history| - 1])
  }

  /** After any history every fixed setting, the origin's spelling among them, is what the process started with. */
  lemma {:induction false} ReloadsKeepServing(w: World, running: Config, history: seq<FileRead>)
    requires Serves(w, running)
    ensures Serves(w, AfterReloads(w, running, history))
    ensures AfterReloads(w, running, history).zone.origin == running.zone.origin
    ensures AfterReloads(w, running, history).(zone := running.zone) == running
  {
    if history != [] {
      var init, read := history[..|history| - 1], history[|history| - 1];
      ReloadsKeepServing(w, running, init);
      var now := AfterReloads(w, running, init);
      if Judge(w, now, read).Ok? { MergeValidates(w.invocation, if w.invocation.config.None? then EMPTY_FILE else read.file); }
    }
  }

  // ---------------------------------------------------------------- theorems

  /** Equal in every field, the origins compared as DNS names. */
  predicate SameConfig(w: World, a: Config, b: Config) {
    SameOrigin(w, a.zone.origin, b.zone.origin) && a.(zone := a.zone.(origin := b.zone.origin)) == b
  }

  lemma LimitFromRates(a: Config, b: Config)
    requires Validated(a) && Validated(b)
    ensures a.rateLimit == b.rateLimit <==> QpsOf(a) == QpsOf(b) && BurstOf(a) == BurstOf(b)
  {
  }

  /** Running is what a restart would resolve exactly when no fixed key would resolve otherwise. */
  lemma RestartIffNoResolvedDrift(w: World, running: Config, read: FileRead)
    requires Serves(w, running) && Judge(w, running, read).Ok?
    ensures var loaded := Judge(w, running, read).value.loaded;
            SameConfig(w, ApplyReloadable(running, loaded), loaded) <==> forall key :: !ResolvesOtherwise(w, key, loaded, running)
  {
    var loaded := Judge(w, running, read).value.loaded;
    MergeValidates(w.invocation, if w.invocation.config.None? then EMPTY_FILE else read.file);
    LimitFromRates(running, loaded);
    if forall key :: !ResolvesOtherwise(w, key, loaded, running) { NothingResolvesOtherwise(w, loaded, running); }
  }

  lemma NothingResolvesOtherwise(w: World, loaded: Config, running: Config)
    requires forall key :: !ResolvesOtherwise(w, key, loaded, running)
    ensures SameOrigin(w, loaded.zone.origin, running.zone.origin)
    ensures loaded.udp == running.udp && loaded.tcp == running.tcp && loaded.adminListen == running.adminListen
    ensures loaded.tcpTimeout == running.tcpTimeout && loaded.shutdownDrain == running.shutdownDrain
    ensures loaded.logFormat == running.logFormat && loaded.logLevel == running.logLevel && loaded.adminToken == running.adminToken
    ensures QpsOf(loaded) == QpsOf(running) && BurstOf(loaded) == BurstOf(running)
  {
    forall key ensures !ResolvesOtherwise(w, key, loaded, running) { }
    assert !ResolvesOtherwise(w, Origin, loaded, running) && !ResolvesOtherwise(w, Udp, loaded, running);
    assert !ResolvesOtherwise(w, Tcp, loaded, running) && !ResolvesOtherwise(w, AdminListen, loaded, running);
    assert !ResolvesOtherwise(w, TcpTimeout, loaded, running) && !ResolvesOtherwise(w, ShutdownDrain, loaded, running);
    assert !ResolvesOtherwise(w, LogFormatKey, loaded, running) && !ResolvesOtherwise(w, LogLevel, loaded, running);
    assert !ResolvesOtherwise(w, AdminToken, loaded, running) && !ResolvesOtherwise(w, Qps, loaded, running);
    assert !ResolvesOtherwise(w, Burst, loaded, running);
  }

  /** After any history of reloads: one that succeeds and ignores nothing leaves what a restart would resolve. */
  lemma QuietReloadIsARestart(w: World, started: Config, history: seq<FileRead>, read: FileRead)
    requires Serves(w, started)
    requires var running := AfterReloads(w, started, history);
             && Judge(w, running, read).Ok?
             && var a := Judge(w, running, read).value; DriftOf(w, running, a.stated, a.loaded) == []
    ensures var a := Judge(w, AfterReloads(w, started, history), read).value;
            && Resolve(w.invocation, read) == Ok(Resolved(a.loaded, a.stated))
            && SameConfig(w, AfterReloads(w, started, history + [read]), a.loaded)
  {
    var running := AfterReloads(w, started, history);
    var a := Judge(w, running, read).value;
    ReloadsKeepServing(w, started, history);
    QuietIffNoDrift(w, running, a.stated, a.loaded);
    forall key ensures !ResolvesOtherwise(w, key, a.loaded, running) {
      assert !Drifts(w, key, running, a.stated, a.loaded);
    }
    RestartIffNoResolvedDrift(w, running, read);
    assert (history + [read])[..|history|] == history;
  }

  /** The file states the key under a command line that says otherwise, or states a burst for a limiter that is off. */
  predicate StatedInVain(w: World, key: Key, file: FileConfig) {
    var cli := w.invocation;
    match key
    case Origin => cli.domain.Some? && file.origin.Some? && !SameOrigin(w, file.origin.value, cli.domain.value)
    case Udp => cli.udp != [] && file.udp != [] && file.udp != cli.udp
    case Tcp => cli.tcp != [] && file.tcp != [] && file.tcp != cli.tcp
    case AdminListen => cli.adminListen.Some? && file.adminListen.Some? && file.adminListen != cli.adminListen
    case TcpTimeout => cli.tcpTimeout.Some? && file.tcpTimeout.Some? && file.tcpTimeout != cli.tcpTimeout
    case ShutdownDrain =>
      cli.shutdownDrain.Some? && file.shutdownDrain.Some? && file.shutdownDrain.value != cli.shutdownDrain.value
    case LogFormatKey => cli.logFormat.Some? && file.logFormat.Some? && file.logFormat != cli.logFormat
    case LogLevel => cli.logLevel.Some? && file.logLevel.Some? && file.logLevel != cli.logLevel
    case AdminToken => cli.adminToken.Some? && file.adminToken.Some? && file.adminToken != cli.adminToken
    case Qps => cli.qps.Some? && file.qps.Some? && file.qps != cli.qps
    case Burst => file.burst.Some? && BurstInVain(cli, file)
  }

  predicate BurstInVain(cli: GlobalArgs, file: FileConfig)
    requires file.burst.Some?
  {
    if cli.qps.Or(file.qps).UnwrapOr(0) == 0 then file.burst.value != 0
    else cli.burst.Some? && cli.burst != file.burst
  }

  /** Reloading the file a process started from reports nothing exactly when that file states nothing in vain. */
  lemma NoOpReloadIsQuiet(w: World, file: FileConfig)
    requires w.invocation.config.Some? && Merge(w.invocation, file).Ok? && w.canonical(Merge(w.invocation, file).value.zone.origin).Some?
    ensures var c := Merge(w.invocation, file).value;
            DriftOf(w, c, Stated(file), c) == [] <==> forall key :: !StatedInVain(w, key, file)
  {
    var c := Merge(w.invocation, file).value;
    QuietIffNoDrift(w, c, Stated(file), c);
    forall key ensures Drifts(w, key, c, Stated(file), c) <==> StatedInVain(w, key, file) {
      VainKey(w, key, file);
    }
  }

  /** Against the config the file itself resolves to, a key drifts exactly when it is stated in vain. */
  lemma VainKey(w: World, key: Key, file: FileConfig)
    requires Merge(w.invocation, file).Ok? && w.canonical(Merge(w.invocation, file).value.zone.origin).Some?
    ensures var c := Merge(w.invocation, file).value;
            Drifts(w, key, c, Stated(file), c) <==> StatedInVain(w, key, file)
  {
  }

  // ------------------------------------------- a key the process honours, reported

  /** A file that states a burst and no rate, under a command line that only names the file. */
  function BurstOnly(path: string, burst: nat): (GlobalArgs, FileConfig) {
    (GlobalArgs(Some(path), [], [], None, None, None, None, None, None, false, None, None, None), EMPTY_FILE.(burst := Some(burst)))
  }

  /** It resolves, with no limiter; and reloading it, unchanged, succeeds and reports the burst. */
  lemma UnusedBurstIsReported(path: string, burst: nat, name: Name, records: nat)
    requires burst > 0
    ensures var (cli, file) := BurstOnly(path, burst);
            var w := World(cli, _ => Some(name), _ => Some(records));
            && Merge(cli, file).Ok? && Merge(cli, file).value.rateLimit == None && Serves(w, Merge(cli, file).value)
            && Judge(w, Merge(cli, file).value, Parsed(file)) == Ok(Accepted(Merge(cli, file).value, Stated(file), records))
            && Burst in DriftOf(w, Merge(cli, file).value, Stated(file), Merge(cli, file).value)
  {
    var (cli, file) := BurstOnly(path, burst);
    var w := World(cli, _ => Some(name), _ => Some(records));
    assert DEFAULT_ORIGIN[0] !in WHITE_SPACE;
    var c := Merge(cli, file).value;
    DriftMembers(w, FIXED_KEYS, c, Stated(file), c);
    EveryKeyIsFixed(Burst);
  }
}
