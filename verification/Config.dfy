/**
 The configuration fields that validation reads or the server acts on, what validation
 accepts, and the reference identifier in effect.
 */
module Config {
  import opened NtpTime
  import opened PacketCodec
  import opened AccessControl
  import opened UpstreamPool

  datatype NtpConfig = NtpConfig(
    listenPort: nat, stratum: byte, referenceId: seq<byte>, upstreamServers: seq<string>,
    workerThreads: nat, maxConnections: int, maxPacketSize: nat,
    syncIntervalSeconds: int, timeoutMillis: int, statsIntervalSeconds: int,
    logMaxSizeBytes: nat, logMaxFiles: nat,
    enableAuthentication: bool, authenticationKey: string,
    enableLeapSecondHandling: bool, leapSecondFile: string,
    acl: Acl,
    enableRateLimiting: bool, connectionRateLimit: uint32, requestRateLimit: uint32,
    enableDdosProtection: bool, ddosThreshold: uint32,
    enableTls: bool, enableCertificateAuthentication: bool, enableCertificateValidation: bool,
    tlsCertFile: string, tlsKeyFile: string, tlsCaFile: string,
    enableStatePersistence: bool, stateFile: string,
    enableAutomaticFailover: bool, enableGracefulDegradation: bool,
    enableSelfHealing: bool, serviceRestartLimit: uint32,
    selectionAlgorithm: Algorithm, enableUpstreamFailover: bool,
    enableDynamicStratum: bool, enableReferenceClock: bool, referenceClockSource: seq<byte>)
  {
    /** The list of validation errors would be empty. */
    predicate Accepted() {
      && 1 <= listenPort <= 65535
      && stratum <= 15
      && 1 <= workerThreads <= 64
      && 1 <= maxConnections <= 100_000
      && 48 <= maxPacketSize <= 8192
      && 1 <= syncIntervalSeconds <= 86_400
      && 10 <= timeoutMillis <= 60_000
      && 1 <= statsIntervalSeconds <= 3600
      && |referenceId| == 4
      && !(0 < logMaxSizeBytes < 1024)
      && 1 <= logMaxFiles <= 1000
      && (enableAuthentication <==> authenticationKey != "")
      && (enableLeapSecondHandling ==> leapSecondFile != "")
      && (acl.restrictQueries ==> acl.allowed != [])
      && (enableRateLimiting ==> connectionRateLimit > 0 && requestRateLimit > 0)
      && (enableDdosProtection ==> ddosThreshold > 0)
      && (enableTls || enableCertificateAuthentication ==> tlsCertFile != "" && tlsKeyFile != "")
      && (enableCertificateValidation ==> tlsCaFile != "")
      && (enableStatePersistence ==> stateFile != "")
      && (enableAutomaticFailover ==> upstreamServers != [])
    }
  }

  /** The errors validation can report. One more check of the program, on statistics, is implied by StatsInterval. */
  datatype ConfigFault =
    | ListenPort | Stratum | WorkerThreads | MaxConnections | MaxPacketSize | SyncInterval | Timeout
    | StatsInterval | ReferenceId | LogMaxSize | LogMaxFiles | KeyMissing | KeyUnused | LeapSecondFile
    | AllowedClients | ConnectionRateLimit | RequestRateLimit | DdosThreshold | TlsFiles | TlsCa | StateFile
    | Upstreams

  /** What each error says about a configuration. */
  predicate Has(c: NtpConfig, fault: ConfigFault) {
    match fault
    case ListenPort => c.listenPort < 1 || c.listenPort > 65535
    case Stratum => c.stratum > 15
    case WorkerThreads => c.workerThreads < 1 || c.workerThreads > 64
    case MaxConnections => c.maxConnections < 1 || c.maxConnections > 100_000
    case MaxPacketSize => c.maxPacketSize < 48 || c.maxPacketSize > 8192
    case SyncInterval => c.syncIntervalSeconds < 1 || c.syncIntervalSeconds > 86_400
    case Timeout => c.timeoutMillis < 10 || c.timeoutMillis > 60_000
    case StatsInterval => c.statsIntervalSeconds < 1 || c.statsIntervalSeconds > 3600
    case ReferenceId => |c.referenceId| != 4
    case LogMaxSize => c.logMaxSizeBytes > 0 && c.logMaxSizeBytes < 1024
    case LogMaxFiles => c.logMaxFiles < 1 || c.logMaxFiles > 1000
    case KeyMissing => c.enableAuthentication && c.authenticationKey == ""
    case KeyUnused => !c.enableAuthentication && c.authenticationKey != ""
    case LeapSecondFile => c.enableLeapSecondHandling && c.leapSecondFile == ""
    case AllowedClients => c.acl.restrictQueries && c.acl.allowed == []
    case ConnectionRateLimit => c.enableRateLimiting && c.connectionRateLimit == 0
    case RequestRateLimit => c.enableRateLimiting && c.requestRateLimit == 0
    case DdosThreshold => c.enableDdosProtection && c.ddosThreshold == 0
    case TlsFiles => (c.enableTls || c.enableCertificateAuthentication) && (c.tlsCertFile == "" || c.tlsKeyFile == "")
    case TlsCa => c.enableCertificateValidation && c.tlsCaFile == ""
    case StateFile => c.enableStatePersistence && c.stateFile == ""
    case Upstreams => c.enableAutomaticFailover && c.upstreamServers == []
  }

  lemma FaultlessRanges(c: NtpConfig)
    requires forall fault: ConfigFault :: !Has(c, fault)
    ensures
      && 1 <= c.listenPort <= 65535
      && c.stratum <= 15
      && 1 <= c.workerThreads <= 64
      && 1 <= c.maxConnections <= 100_000
      && 48 <= c.maxPacketSize <= 8192
      && 1 <= c.syncIntervalSeconds <= 86_400
      && 10 <= c.timeoutMillis <= 60_000
      && 1 <= c.statsIntervalSeconds <= 3600
  {
    hide NtpConfig.Accepted;
    assert !Has(c, ListenPort) && !Has(c, Stratum) && !Has(c, WorkerThreads) && !Has(c, MaxConnections);
    assert !Has(c, MaxPacketSize) && !Has(c, SyncInterval) && !Has(c, Timeout) && !Has(c, StatsInterval);
  }

  lemma FaultlessSettings(c: NtpConfig)
    requires forall fault: ConfigFault :: !Has(c, fault)
    ensures
      && |c.referenceId| == 4
      && !(0 < c.logMaxSizeBytes < 1024)
      && 1 <= c.logMaxFiles <= 1000
      && (c.enableAuthentication <==> c.authenticationKey != "")
      && (c.enableLeapSecondHandling ==> c.leapSecondFile != "")
      && (c.acl.restrictQueries ==> c.acl.allowed != [])
  {
    hide NtpConfig.Accepted;
    assert !Has(c, ReferenceId) && !Has(c, LogMaxSize) && !Has(c, LogMaxFiles) && !Has(c, KeyMissing);
    assert !Has(c, KeyUnused) && !Has(c, LeapSecondFile) && !Has(c, AllowedClients);
  }

  lemma FaultlessSecurity(c: NtpConfig)
    requires forall fault: ConfigFault :: !Has(c, fault)
    ensures
      && (c.enableRateLimiting ==> c.connectionRateLimit > 0 && c.requestRateLimit > 0)
      && (c.enableDdosProtection ==> c.ddosThreshold > 0)
      && (c.enableTls || c.enableCertificateAuthentication ==> c.tlsCertFile != "" && c.tlsKeyFile != "")
      && (c.enableCertificateValidation ==> c.tlsCaFile != "")
      && (c.enableStatePersistence ==> c.stateFile != "")
      && (c.enableAutomaticFailover ==> c.upstreamServers != [])
  {
    hide NtpConfig.Accepted;
    assert !Has(c, ConnectionRateLimit) && !Has(c, RequestRateLimit) && !Has(c, DdosThreshold) && !Has(c, TlsFiles);
    assert !Has(c, TlsCa) && !Has(c, StateFile) && !Has(c, Upstreams);
  }

  lemma FaultlessIsAccepted(c: NtpConfig)
    requires forall fault: ConfigFault :: !Has(c, fault)
    ensures c.Accepted()
  {
    hide Has;
    FaultlessRanges(c);
    FaultlessSettings(c);
    FaultlessSecurity(c);
  }

  lemma AcceptedIsFaultless(c: NtpConfig, fault: ConfigFault)
    requires c.Accepted()
    ensures !Has(c, fault)
  {
  }

  /** Validation accepts exactly the configurations without an error. */
  lemma AcceptedIffFaultless(c: NtpConfig)
    ensures c.Accepted() <==> forall fault: ConfigFault :: !Has(c, fault)
  {
    hide NtpConfig.Accepted, Has;
    if c.Accepted() {
      forall fault: ConfigFault ensures !Has(c, fault) {
        AcceptedIsFaultless(c, fault);
      }
    }
    if forall fault: ConfigFault :: !Has(c, fault) {
      FaultlessIsAccepted(c);
    }
  }

  const LOCL: seq<byte> := [0x4C, 0x4F, 0x43, 0x4C]
  const GPS: seq<byte> := [0x47, 0x50, 0x53, 0x20]
  const ATOM: seq<byte> := [0x41, 0x54, 0x4F, 0x4D]
  const HARD: seq<byte> := [0x48, 0x41, 0x52, 0x44]

  const SOURCE_GPS: seq<byte> := [0x67, 0x70, 0x73]
  const SOURCE_ATOMIC: seq<byte> := [0x61, 0x74, 0x6F, 0x6D, 0x69, 0x63]
  const SOURCE_HARDWARE: seq<byte> := [0x68, 0x61, 0x72, 0x64, 0x77, 0x61, 0x72, 0x65]

  function ToLower(s: seq<byte>): (t: seq<byte>)
    ensures |t| == |s|
  {
    seq(|s|, i requires 0 <= i < |s| => if 65 <= s[i] <= 90 then (s[i] as int) + 32 else s[i])
  }

  function EffectiveReferenceId(c: NtpConfig): seq<byte> {
    if !c.enableReferenceClock then c.referenceId
    else if ToLower(c.referenceClockSource) == SOURCE_GPS then GPS
    else if ToLower(c.referenceClockSource) == SOURCE_ATOMIC then ATOM
    else if ToLower(c.referenceClockSource) == SOURCE_HARDWARE then HARD
    else if c.referenceId == [] then LOCL
    else c.referenceId
  }

  /** The same text but for the case of its letters. */
  predicate SameButCase(a: seq<byte>, b: seq<byte>) {
    |a| == |b| && forall i :: 0 <= i < |a| ==> SameLetter(a[i], b[i])
  }

  predicate SameLetter(a: int, b: int) {
    a == b || (65 <= a <= 90 && b == a + 32) || (97 <= a <= 122 && b == a - 32)
  }

  /** The identifier in effect, in the bytes of "GPS ", "ATOM" and "HARD", by the configured source in any case of its letters. */
  lemma ReferenceIdBySource(c: NtpConfig)
    ensures !c.enableReferenceClock ==> EffectiveReferenceId(c) == c.referenceId
    ensures c.enableReferenceClock && SameButCase(c.referenceClockSource, [103, 112, 115]) ==>
              EffectiveReferenceId(c) == [71, 80, 83, 32]
    ensures c.enableReferenceClock && SameButCase(c.referenceClockSource, [97, 116, 111, 109, 105, 99]) ==>
              EffectiveReferenceId(c) == [65, 84, 79, 77]
    ensures c.enableReferenceClock && SameButCase(c.referenceClockSource, [104, 97, 114, 100, 119, 97, 114, 101]) ==>
              EffectiveReferenceId(c) == [72, 65, 82, 68]
    ensures c.enableReferenceClock && !SameButCase(c.referenceClockSource, [103, 112, 115])
            && !SameButCase(c.referenceClockSource, [97, 116, 111, 109, 105, 99])
            && !SameButCase(c.referenceClockSource, [104, 97, 114, 100, 119, 97, 114, 101]) ==>
              EffectiveReferenceId(c) == if c.referenceId == [] then [76, 79, 67, 76] else c.referenceId
  {
    LowerIffSame(c.referenceClockSource, SOURCE_GPS);
    LowerIffSame(c.referenceClockSource, SOURCE_ATOMIC);
    LowerIffSame(c.referenceClockSource, SOURCE_HARDWARE);
    hide ToLower, SameButCase;
  }

  lemma LowerIffSame(a: seq<byte>, lower: seq<byte>)
    requires forall i :: 0 <= i < |lower| ==> 97 <= lower[i] <= 122
    ensures ToLower(a) == lower <==> SameButCase(a, lower)
  {
    if ToLower(a) == lower {
      forall i | 0 <= i < |a| ensures SameLetter(a[i], lower[i]) {
        assert ToLower(a)[i] == lower[i];
      }
    }
    if SameButCase(a, lower) {
      forall i | 0 <= i < |a| ensures ToLower(a)[i] == lower[i] {
        assert SameLetter(a[i], lower[i]);
      }
    }
  }

  /** An accepted configuration always yields an identifier of four characters. */
  lemma ReferenceIdHasFour(c: NtpConfig)
    requires c.Accepted()
    ensures |EffectiveReferenceId(c)| == 4
  {
  }
}
