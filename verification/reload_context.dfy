/** The reload as the process runs it: one object, its gates in order, and nothing shared touched before the last. */
module ReloadContexts {
  import opened Configs
  import opened Reloads

  /** `ignored` names the fixed settings the file asks to change. */
  datatype Outcome = Outcome(origin: string, records: nat, ignored: seq<Key>)

  function DriftUpTo(w: World, n: nat, running: Config, stated: FileSettings, loaded: Config): seq<Key>
    requires n <= |FIXED_KEYS|
  {
    DriftAmong(w, FIXED_KEYS[..n], running, stated, loaded)
  }

  lemma DriftNext(w: World, n: nat, key: Key, running: Config, stated: FileSettings, loaded: Config)
    requires n < |FIXED_KEYS| && FIXED_KEYS[n] == key
    ensures DriftUpTo(w, n + 1, running, stated, loaded)
         == DriftUpTo(w, n, running, stated, loaded) + if Drifts(w, key, running, stated, loaded) then [key] else []
  {
    assert FIXED_KEYS[..n + 1][..n] == FIXED_KEYS[..n];
  }

  method PushIf(w: World, n: nat, key: Key, drifts: bool, running: Config, stated: FileSettings, loaded: Config, ignored: seq<Key>)
    returns (r: seq<Key>)
    requires n < |FIXED_KEYS| && FIXED_KEYS[n] == key && drifts == Drifts(w, key, running, stated, loaded)
    requires ignored == DriftUpTo(w, n, running, stated, loaded)
    ensures r == DriftUpTo(w, n + 1, running, stated, loaded)
  {
    DriftNext(w, n, key, running, stated, loaded);
    r := if drifts then ignored + [key] else ignored;
  }

  method DriftOfListeners(w: World, running: Config, stated: FileSettings, loaded: Config) returns (ignored: seq<Key>)
    ensures ignored == DriftUpTo(w, 4, running, stated, loaded)
  {
    ignored := [];
    var origin := stated.origin.Some? && !SameOrigin(w, stated.origin.value, running.zone.origin);
    ignored := PushIf(w, 0, Origin, origin || !SameOrigin(w, loaded.zone.origin, running.zone.origin), running, stated, loaded, ignored);
    var udp := stated.udp != [] && stated.udp != running.udp;
    ignored := PushIf(w, 1, Udp, udp || loaded.udp != running.udp, running, stated, loaded, ignored);
    var tcp := stated.tcp != [] && stated.tcp != running.tcp;
    ignored := PushIf(w, 2, Tcp, tcp || loaded.tcp != running.tcp, running, stated, loaded, ignored);
    var admin := stated.adminListen.Some? && stated.adminListen != running.adminListen;
    ignored := PushIf(w, 3, AdminListen, admin || loaded.adminListen != running.adminListen, running, stated, loaded, ignored);
  }

  method DriftOfProcess(w: World, running: Config, stated: FileSettings, loaded: Config, before: seq<Key>) returns (ignored: seq<Key>)
    requires before == DriftUpTo(w, 4, running, stated, loaded)
    ensures ignored == DriftUpTo(w, 8, running, stated, loaded)
  {
    ignored := before;
    var timeout := stated.tcpTimeout.Some? && stated.tcpTimeout.value != running.tcpTimeout;
    ignored := PushIf(w, 4, TcpTimeout, timeout || loaded.tcpTimeout != running.tcpTimeout, running, stated, loaded, ignored);
    var drain := stated.shutdownDrain.Some? && (stated.shutdownDrain.value < 0 || stated.shutdownDrain.value != running.shutdownDrain);
    ignored := PushIf(w, 5, ShutdownDrain, drain || loaded.shutdownDrain != running.shutdownDrain, running, stated, loaded, ignored);
    var format := stated.logFormat.Some? && stated.logFormat.value != running.logFormat;
    ignored := PushIf(w, 6, LogFormatKey, format || loaded.logFormat != running.logFormat, running, stated, loaded, ignored);
    var level := stated.logLevel.Some? && stated.logLevel.value != running.logLevel;
    ignored := PushIf(w, 7, LogLevel, level || loaded.logLevel != running.logLevel, running, stated, loaded, ignored);
  }

  /** Key by key in the order of the partition table, each pushed at most once. */
  method Drift(w: World, running: Config, stated: FileSettings, loaded: Config) returns (ignored: seq<Key>)
    ensures ignored == DriftOf(w, running, stated, loaded)
  {
    ignored := DriftOfListeners(w, running, stated, loaded);
    ignored := DriftOfProcess(w, running, stated, loaded, ignored);
    var token := stated.adminToken.Some? && stated.adminToken != running.adminToken;
    ignored := PushIf(w, 8, AdminToken, token || loaded.adminToken != running.adminToken, running, stated, loaded, ignored);
    var qps := stated.qps.Some? && stated.qps.value != QpsOf(running);
    ignored := PushIf(w, 9, Qps, qps || QpsOf(loaded) != QpsOf(running), running, stated, loaded, ignored);
    var burst := stated.burst.Some? && stated.burst.value != BurstOf(running);
    ignored := PushIf(w, 10, Burst, burst || BurstOf(loaded) != BurstOf(running), running, stated, loaded, ignored);
    assert FIXED_KEYS[..11] == FIXED_KEYS;
  }

  /** The zone in place is the one the running settings build, in whatever spelling of the origin the file last used. */
  predicate InPlace(w: World, zone: ZoneSettings, running: Config) {
    SameOrigin(w, zone.origin, running.zone.origin) && zone.(origin := running.zone.origin) == running.zone
  }

  class ReloadContext {
    const w: World
    var running: Config
    var zone: ZoneSettings
    var gauge: nat
    var draining: bool
    var busy: bool

    ghost predicate Valid()
      reads this
    {
      Serves(w, running) && InPlace(w, zone, running) && w.build(zone) == Some(gauge)
    }

    constructor (w: World, running: Config, records: nat)
      requires Serves(w, running) && w.build(running.zone) == Some(records)
      ensures Valid() && this.w == w && this.running == running && zone == running.zone && !draining && !busy
    {
      this.w := w;
      this.running := running;
      zone := running.zone;
      gauge := records;
      draining := false;
      busy := false;
    }

    /** One reload; `drains` says whether a drain starts while it is building. A refused one changes nothing but that. */
    method Reload(read: FileRead, drains: bool) returns (r: Result<Outcome, Code>)
      requires Valid()
      modifies this
      ensures Valid() && busy == old(busy)
      ensures draining == (old(draining) || (drains && !old(busy) && Judge(w, old(running), read).Ok?))
      ensures r.Err? ==> running == old(running) && zone == old(zone) && gauge == old(gauge)
      ensures old(draining) ==> r == Err(ShuttingDown)
      ensures !old(draining) && old(busy) ==> r == Err(ReloadInProgress)
      ensures !old(draining) && !old(busy) ==>
                match Judge(w, old(running), read)
                case Err(code) => r == Err(code)
                case Ok(a) =>
                  if drains then r == Err(ShuttingDown)
                  else && r == Ok(Outcome(a.loaded.zone.origin, a.records, DriftOf(w, old(running), a.stated, a.loaded)))
                       && running == ApplyReloadable(old(running), a.loaded) && zone == a.loaded.zone && gauge == a.records
    {
      if draining { return Err(ShuttingDown); }
      if busy { return Err(ReloadInProgress); }
      var judged := Judge(w, running, read);
      if judged.Err? { return Err(judged.error); }
      var a := judged.value;
      MergeValidates(w.invocation, if w.invocation.config.None? then EMPTY_FILE else read.file);
      draining := draining || drains;
      if draining { return Err(ShuttingDown); }
      zone := a.loaded.zone;
      gauge := a.records;
      var ignored := Drift(w, running, a.stated, a.loaded);
      running := ApplyReloadable(running, a.loaded);
      return Ok(Outcome(a.loaded.zone.origin, a.records, ignored));
    }
  }
}
