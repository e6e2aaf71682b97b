/** Resolving a configuration: command line and environment over file over default, with every refusal. */
module Configs {

  datatype Option<+T> = None | Some(value: T) {
    /** `self.or(other)`. */
    function Or(other: Option<T>): Option<T> {
      if this.Some? then this else other
    }

    function UnwrapOr(fallback: T): T {
      if this.Some? then value else fallback
    }
  }

  datatype Result<+T, +E> = Ok(value: T) | Err(error: E) {
    predicate IsFailure() {
      Err?
    }

    function PropagateFailure<U>(): Result<U, E>
      requires Err?
    {
      Err(error)
    }

    function Extract(): T
      requires Ok?
    {
      value
    }
  }

  datatype SocketAddr = SocketAddr(ip: nat, port: nat)

  datatype LogFormat = Pretty | Json

  /** A `[zone.soa]` table and a record set, which nothing here looks inside. */
  datatype SoaSpec = SoaSpec(id: nat)
  datatype RecordSpec = RecordSpec(id: nat)

  const DEFAULT_ADDR := SocketAddr(0, 1053)
  const DEFAULT_ORIGIN := "dnsserver.dev"
  const DEFAULT_TTL := 300
  const DEFAULT_TCP_TIMEOUT := 10
  const DEFAULT_SHUTDOWN_DRAIN := 15
  const MAX_SHUTDOWN_DRAIN := 300
  const DEFAULT_LOG_FILTER := "info,hickory_server=warn,hickory_proto=warn"
  const TCP_RESPONSE_BUFFER := 32
  const MAX_U32 := 0xffff_ffff

  /** The command line and environment; `config` is the file they name. */
  datatype GlobalArgs = GlobalArgs(
    config: Option<string>,
    udp: seq<SocketAddr>, tcp: seq<SocketAddr>, adminListen: Option<SocketAddr>,
    domain: Option<string>,
    qps: Option<nat>, burst: Option<nat>,
    tcpTimeout: Option<nat>, shutdownDrain: Option<nat>,
    noBuiltins: bool, logFormat: Option<LogFormat>, logLevel: Option<string>, adminToken: Option<string>)

  /** The file as written; its drain window is signed. */
  datatype FileConfig = FileConfig(
    udp: seq<SocketAddr>, tcp: seq<SocketAddr>, adminListen: Option<SocketAddr>,
    tcpTimeout: Option<nat>, shutdownDrain: Option<int>,
    logFormat: Option<LogFormat>, logLevel: Option<string>, adminToken: Option<string>,
    qps: Option<nat>, burst: Option<nat>,
    origin: Option<string>, defaultTtl: Option<nat>, builtins: Option<bool>, soa: Option<SoaSpec>, records: seq<RecordSpec>)

  const EMPTY_FILE := FileConfig([], [], None, None, None, None, None, None, None, None, None, None, None, None, [])

  datatype RateLimit = RateLimit(qps: nat, burst: nat)

  datatype ZoneSettings = ZoneSettings(origin: string, defaultTtl: nat, builtins: bool, soa: Option<SoaSpec>, records: seq<RecordSpec>)

  datatype Config = Config(
    source: Option<string>,
    udp: seq<SocketAddr>, tcp: seq<SocketAddr>, adminListen: Option<SocketAddr>,
    tcpTimeout: nat, shutdownDrain: nat, tcpResponseBuffer: nat,
    zone: ZoneSettings,
    rateLimit: Option<RateLimit>,
    logFormat: LogFormat, logLevel: string, adminToken: Option<string>)

  datatype Refusal = DuplicateUdp | DuplicateTcp | EmptyOrigin | ZeroTtl | ZeroTcpTimeout | DrainOutOfRange | ZeroBurst

  // ------------------------------------------------------------- its pieces

  function PickAddrs(cli: seq<SocketAddr>, file: seq<SocketAddr>): seq<SocketAddr> {
    if cli == [] then file else cli
  }

  predicate HasDuplicates(addrs: seq<SocketAddr>) {
    exists i, j :: 0 <= i < j < |addrs| && addrs[i] == addrs[j]
  }

  method RejectDuplicates(addrs: seq<SocketAddr>) returns (ok: bool)
    ensures ok <==> !HasDuplicates(addrs)
  {
    var seen: set<SocketAddr> := {};
    for i := 0 to |addrs|
      invariant seen == set k | 0 <= k < i :: addrs[k]
      invariant !HasDuplicates(addrs[..i])
    {
      if addrs[i] in seen {
        return false;
      }
      seen := seen + {addrs[i]};
    }
    assert addrs[..|addrs|] == addrs;
    return true;
  }

  const WHITE_SPACE := " \t\n\U{0b}\U{0c}\r"

  predicate IsBlank(text: string) {
    forall i | 0 <= i < |text| :: text[i] in WHITE_SPACE
  }

  function Demand(holds: bool, refusal: Refusal): Result<(), Refusal> {
    if holds then Ok(()) else Err(refusal)
  }

  function ResolveTcpTimeout(secs: Option<nat>): Result<nat, Refusal> {
    match secs
    case None => Ok(DEFAULT_TCP_TIMEOUT)
    case Some(s) => if s == 0 then Err(ZeroTcpTimeout) else Ok(s)
  }

  /** Out of range is refused, never clamped, whichever tier it came from. */
  function ResolveShutdownDrain(cli: Option<nat>, file: Option<int>): (r: Result<nat, Refusal>)
    ensures r.Ok? ==> r.value <= MAX_SHUTDOWN_DRAIN
  {
    match (cli, file)
    case (Some(secs), _) => if secs > MAX_SHUTDOWN_DRAIN then Err(DrainOutOfRange) else Ok(secs)
    case (None, None) => Ok(DEFAULT_SHUTDOWN_DRAIN)
    case (None, Some(secs)) => if 0 <= secs <= MAX_SHUTDOWN_DRAIN then Ok(secs) else Err(DrainOutOfRange)
  }

  function SaturatingDouble(x: nat): nat {
    if 2 * x > MAX_U32 then MAX_U32 else 2 * x
  }

  /** Zero means off, in either tier. */
  function ResolveRateLimit(qps: Option<nat>, burst: Option<nat>): (r: Result<Option<RateLimit>, Refusal>)
    ensures r.Ok? && r.value.Some? ==> r.value.value.qps > 0 && r.value.value.burst > 0
  {
    if qps.None? || qps.value == 0 then Ok(None)
    else
      var b := burst.UnwrapOr(SaturatingDouble(qps.value));
      if b == 0 then Err(ZeroBurst) else Ok(Some(RateLimit(qps.value, b)))
  }

  function Merge(cli: GlobalArgs, file: FileConfig): Result<Config, Refusal> {
    var picked, tcp := PickAddrs(cli.udp, file.udp), PickAddrs(cli.tcp, file.tcp);
    var udp := if picked == [] && tcp == [] then [DEFAULT_ADDR] else picked;
    var _ :- Demand(!HasDuplicates(udp), DuplicateUdp);
    var _ :- Demand(!HasDuplicates(tcp), DuplicateTcp);
    var origin := cli.domain.Or(file.origin).UnwrapOr(DEFAULT_ORIGIN);
    var _ :- Demand(!IsBlank(origin), EmptyOrigin);
    var ttl := file.defaultTtl.UnwrapOr(DEFAULT_TTL);
    var _ :- Demand(ttl != 0, ZeroTtl);
    var builtins := !cli.noBuiltins && file.builtins.UnwrapOr(true);
    var timeout :- ResolveTcpTimeout(cli.tcpTimeout.Or(file.tcpTimeout));
    var drain :- ResolveShutdownDrain(cli.shutdownDrain, file.shutdownDrain);
    var limit :- ResolveRateLimit(cli.qps.Or(file.qps), cli.burst.Or(file.burst));
    Ok(Config(cli.config, udp, tcp, cli.adminListen.Or(file.adminListen), timeout, drain, TCP_RESPONSE_BUFFER,
              ZoneSettings(origin, ttl, builtins, file.soa, file.records), limit,
              cli.logFormat.Or(file.logFormat).UnwrapOr(Pretty),
              cli.logLevel.Or(file.logLevel).UnwrapOr(DEFAULT_LOG_FILTER),
              cli.adminToken.Or(file.adminToken)))
  }

  /** What the file alone states for the settings that are fixed for the life of the process. */
  datatype FileSettings = FileSettings(
    origin: Option<string>, udp: seq<SocketAddr>, tcp: seq<SocketAddr>, adminListen: Option<SocketAddr>,
    tcpTimeout: Option<nat>, shutdownDrain: Option<int>,
    logFormat: Option<LogFormat>, logLevel: Option<string>, adminToken: Option<string>,
    qps: Option<nat>, burst: Option<nat>)

  function Stated(file: FileConfig): FileSettings {
    FileSettings(file.origin, file.udp, file.tcp, file.adminListen, file.tcpTimeout, file.shutdownDrain,
                 file.logFormat, file.logLevel, file.adminToken, file.qps, file.burst)
  }

  /** What reading the file comes to; the text itself is not part of this model. */
  datatype FileRead = Unreadable | Unparseable | Parsed(file: FileConfig)

  datatype LoadError = ReadFailed | ParseFailed | Invalid(refusal: Refusal)

  datatype Resolved = Resolved(config: Config, stated: FileSettings)

  /** Start-up and every reload resolve through this one function. */
  function Resolve(cli: GlobalArgs, read: FileRead): Result<Resolved, LoadError> {
    match if cli.config.None? then Parsed(EMPTY_FILE) else read
    case Unreadable => Err(ReadFailed)
    case Unparseable => Err(ParseFailed)
    case Parsed(file) =>
      match Merge(cli, file)
      case Err(refusal) => Err(Invalid(refusal))
      case Ok(config) => Ok(Resolved(config, Stated(file)))
  }

  /** What every config that resolves satisfies. */
  predicate Validated(c: Config) {
    && !HasDuplicates(c.udp) && !HasDuplicates(c.tcp) && (c.udp != [] || c.tcp != [])
    && !IsBlank(c.zone.origin) && c.zone.defaultTtl > 0
    && c.tcpTimeout > 0 && c.shutdownDrain <= 300 && c.tcpResponseBuffer == 32
    && (c.rateLimit.Some? ==> c.rateLimit.value.qps > 0 && c.rateLimit.value.burst > 0)
  }

  lemma MergeValidates(cli: GlobalArgs, file: FileConfig)
    ensures Merge(cli, file).Ok? ==> Validated(Merge(cli, file).value) && Merge(cli, file).value.source == cli.config
  {
  }

  /** The command line, else the file, else the default. */
  predicate FromTiers<T(==)>(value: T, cli: Option<T>, file: Option<T>, fallback: T) {
    if cli.Some? then value == cli.value else if file.Some? then value == file.value else value == fallback
  }

  /** A setting that may be absent altogether, as a tier that may state it. */
  function Stating<T>(x: Option<T>): Option<Option<T>> {
    if x.Some? then Some(x) else None
  }

  function Least(a: nat, b: nat): nat {
    if a <= b then a else b
  }

  predicate LimitFromTiers(limit: Option<RateLimit>, cli: GlobalArgs, file: FileConfig) {
    var off := RateLimit(0, 0);
    && FromTiers(limit.UnwrapOr(off).qps, cli.qps, file.qps, 0)
    && (limit.Some? ==> limit.value.qps > 0 && FromTiers(limit.value.burst, cli.burst, file.burst, Least(2 * limit.value.qps, 0xffff_ffff)))
  }

  /** The addresses of the first tier that lists any. */
  predicate Listed(addrs: seq<SocketAddr>, cli: seq<SocketAddr>, file: seq<SocketAddr>) {
    addrs == if cli != [] then cli else file
  }

  /** The addresses listened on, and with none listed at all, UDP at port 1053 of every interface. */
  lemma MergedAddresses(cli: GlobalArgs, file: FileConfig)
    ensures Merge(cli, file).Ok? ==>
              var c := Merge(cli, file).value;
              && c.source == cli.config && c.tcpResponseBuffer == 32
              && Listed(c.tcp, cli.tcp, file.tcp)
              && if cli.udp == [] && file.udp == [] && c.tcp == [] then c.udp == [SocketAddr(0, 1_053)] else Listed(c.udp, cli.udp, file.udp)
  {
  }

  predicate Repeats(addrs: seq<SocketAddr>) {
    exists i, j | 0 <= i < j < |addrs| :: addrs[i] == addrs[j]
  }

  /** The value of the first tier that states one. */
  function FirstStated<T>(cli: Option<T>, file: Option<T>): Option<T> {
    if cli.Some? then cli else file
  }

  /** What each refusal is for. */
  predicate AtFault(cli: GlobalArgs, file: FileConfig, refusal: Refusal) {
    match refusal
    case DuplicateUdp => Repeats(if cli.udp != [] then cli.udp else file.udp)
    case DuplicateTcp => Repeats(if cli.tcp != [] then cli.tcp else file.tcp)
    case EmptyOrigin =>
      var origin := FirstStated(cli.domain, file.origin);
      origin.Some? && forall c | c in origin.value :: c == ' ' || 9 <= c as int <= 13
    case ZeroTtl => file.defaultTtl == Some(0)
    case ZeroTcpTimeout => FirstStated(cli.tcpTimeout, file.tcpTimeout) == Some(0)
    case DrainOutOfRange =>
      if cli.shutdownDrain.Some? then cli.shutdownDrain.value > 300
      else file.shutdownDrain.Some? && !(0 <= file.shutdownDrain.value <= 300)
    case ZeroBurst =>
      var qps := FirstStated(cli.qps, file.qps);
      qps.Some? && qps.value > 0 && FirstStated(cli.burst, file.burst) == Some(0)
  }

  /** In which order they are looked for. */
  function Place(refusal: Refusal): nat {
    match refusal
    case DuplicateUdp => 0
    case DuplicateTcp => 1
    case EmptyOrigin => 2
    case ZeroTtl => 3
    case ZeroTcpTimeout => 4
    case DrainOutOfRange => 5
    case ZeroBurst => 6
  }

  lemma RepeatsIsDuplicates(addrs: seq<SocketAddr>)
    ensures Repeats(addrs) == HasDuplicates(addrs)
  {
  }

  lemma SpaceIs(c: char)
    ensures c in WHITE_SPACE <==> c == ' ' || 9 <= c as int <= 13
  {
    var w := WHITE_SPACE;
    assert w[0] == ' ' && w[1] as int == 9 && w[2] as int == 10 && w[3] as int == 11 && w[4] as int == 12 && w[5] as int == 13;
  }

  lemma BlankIsSpace(text: string)
    ensures IsBlank(text) <==> forall c | c in text :: c == ' ' || 9 <= c as int <= 13
  {
    if IsBlank(text) {
      forall c | c in text ensures c == ' ' || 9 <= c as int <= 13 {
        var i :| 0 <= i < |text| && text[i] == c;
        SpaceIs(c);
      }
    }
    if forall c | c in text :: c == ' ' || 9 <= c as int <= 13 {
      forall i | 0 <= i < |text| ensures text[i] in WHITE_SPACE {
        assert text[i] in text;
        SpaceIs(text[i]);
      }
    }
  }

  /** A merge is refused for its first fault, and for a fault only. */
  lemma RefusedForTheFirstFault(cli: GlobalArgs, file: FileConfig)
    ensures match Merge(cli, file)
            case Ok(_) => forall refusal :: !AtFault(cli, file, refusal)
            case Err(e) => AtFault(cli, file, e) && forall refusal | Place(refusal) < Place(e) :: !AtFault(cli, file, refusal)
  {
    RepeatsIsDuplicates(if cli.udp != [] then cli.udp else file.udp);
    RepeatsIsDuplicates(if cli.tcp != [] then cli.tcp else file.tcp);
    var origin := FirstStated(cli.domain, file.origin);
    if origin.Some? { BlankIsSpace(origin.value); }
    assert DEFAULT_ORIGIN[0] == 'd';
  }

  /** The zone's own data come from the file, under the origin of the first tier that states one. */
  lemma MergedZone(cli: GlobalArgs, file: FileConfig)
    ensures Merge(cli, file).Ok? ==>
              var zone := Merge(cli, file).value.zone;
              && FromTiers(zone.origin, cli.domain, file.origin, "dnsserver.dev")
              && FromTiers(zone.defaultTtl, None, file.defaultTtl, 300)
              && FromTiers(zone.builtins, if cli.noBuiltins then Some(false) else None, file.builtins, true)
              && zone.soa == file.soa && zone.records == file.records
  {
  }

  /** Every other setting comes from the first tier that states it, the two halves of a rate limit each for itself. */
  lemma MergedSettings(cli: GlobalArgs, file: FileConfig)
    ensures Merge(cli, file).Ok? ==>
              var c := Merge(cli, file).value;
              && FromTiers(c.tcpTimeout, cli.tcpTimeout, file.tcpTimeout, 10)
              && FromTiers(c.shutdownDrain as int, cli.shutdownDrain, file.shutdownDrain, 15)
              && FromTiers(c.logFormat, cli.logFormat, file.logFormat, Pretty)
              && FromTiers(c.logLevel, cli.logLevel, file.logLevel, "info,hickory_server=warn,hickory_proto=warn")
              && FromTiers(c.adminListen, Stating(cli.adminListen), Stating(file.adminListen), None)
              && FromTiers(c.adminToken, Stating(cli.adminToken), Stating(file.adminToken), None)
              && LimitFromTiers(c.rateLimit, cli, file)
  {
  }

  /** The file that is read, if one is named; one that is not states nothing. */
  predicate IsFile(cli: GlobalArgs, read: FileRead, file: FileConfig) {
    if cli.config.Some? then read == Parsed(file)
    else file == FileConfig([], [], None, None, None, None, None, None, None, None, None, None, None, None, [])
  }

  /** What resolving comes to: the merge, beside what the file itself states of the settings that a reload cannot change. */
  lemma ResolvedSays(cli: GlobalArgs, read: FileRead)
    ensures Resolve(cli, read) == Err(ReadFailed) <==> cli.config.Some? && read.Unreadable?
    ensures Resolve(cli, read) == Err(ParseFailed) <==> cli.config.Some? && read.Unparseable?
    ensures forall file | IsFile(cli, read, file) ::
              match Merge(cli, file)
              case Err(refusal) => Resolve(cli, read) == Err(Invalid(refusal))
              case Ok(config) =>
                && Resolve(cli, read).Ok? && Resolve(cli, read).value.config == config
                && var s := Resolve(cli, read).value.stated;
                   && s.origin == file.origin && s.udp == file.udp && s.tcp == file.tcp && s.adminListen == file.adminListen
                   && s.tcpTimeout == file.tcpTimeout && s.shutdownDrain == file.shutdownDrain
                   && s.logFormat == file.logFormat && s.logLevel == file.logLevel && s.adminToken == file.adminToken
                   && s.qps == file.qps && s.burst == file.burst
  {
  }

  /** The file without what the command line and environment already decide. */
  function Unshadowed(cli: GlobalArgs, file: FileConfig): FileConfig {
    FileConfig(
      if cli.udp != [] then [] else file.udp, if cli.tcp != [] then [] else file.tcp,
      if cli.adminListen.Some? then None else file.adminListen,
      if cli.tcpTimeout.Some? then None else file.tcpTimeout,
      if cli.shutdownDrain.Some? then None else file.shutdownDrain,
      if cli.logFormat.Some? then None else file.logFormat,
      if cli.logLevel.Some? then None else file.logLevel,
      if cli.adminToken.Some? then None else file.adminToken,
      if cli.qps.Some? then None else file.qps, if cli.burst.Some? then None else file.burst,
      if cli.domain.Some? then None else file.origin,
      file.defaultTtl, if cli.noBuiltins then None else file.builtins, file.soa, file.records)
  }

  /** A shadowed key has no effect at all: not on the config, and not on which file is refused. */
  lemma ShadowedKeysHaveNoEffect(cli: GlobalArgs, file: FileConfig)
    ensures Merge(cli, Unshadowed(cli, file)) == Merge(cli, file)
  {
    var u := Unshadowed(cli, file);
    assert PickAddrs(cli.udp, u.udp) == PickAddrs(cli.udp, file.udp) && PickAddrs(cli.tcp, u.tcp) == PickAddrs(cli.tcp, file.tcp);
    assert cli.domain.Or(u.origin) == cli.domain.Or(file.origin) && cli.tcpTimeout.Or(u.tcpTimeout) == cli.tcpTimeout.Or(file.tcpTimeout);
    assert ResolveShutdownDrain(cli.shutdownDrain, u.shutdownDrain) == ResolveShutdownDrain(cli.shutdownDrain, file.shutdownDrain);
    assert cli.qps.Or(u.qps) == cli.qps.Or(file.qps) && cli.burst.Or(u.burst) == cli.burst.Or(file.burst);
  }
}
