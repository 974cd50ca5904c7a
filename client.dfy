/**
  client.go: Connect's translation of the package's Config into the SSH
  library's client configuration, client.go's own copy of the copy loop, and
  the dial-failure path of BindConnToRemoteBuffer. The SSH library's Dial and
  the values the configuration only carries through (random source, auth
  methods, callbacks) are opaque here.
*/
module Client {
  import opened Wrappers
  import opened Errors
  import opened StreamCopy

  /** A value the configuration only carries: an io.Reader, an auth method, a callback. */
  type Handle = nat

  type uint64 = x: int | 0 <= x < 0x1_0000_0000_0000_0000

  /** time.Duration, in nanoseconds. */
  type Duration = int

  const Second: Duration := 1_000_000_000

  /** The timeout Connect always gives the SSH library. */
  const DialTimeout: Duration := 15 * Second

  /** The client version used when the caller's config leaves it empty. */
  const DefaultClientVersion: string := "SSH-2.0-GoSSH"

  /** The package's Config. A nil callback is None. */
  datatype Config = Config(
    rand: Option<Handle>,
    rekeyThreshold: uint64,
    keyExchanges: seq<string>,
    ciphers: seq<string>,
    macs: seq<string>,
    user: string,
    auth: seq<Handle>,
    hostKeyCallback: Option<Handle>,
    bannerCallback: Option<Handle>,
    clientVersion: string,
    hostKeyAlgorithms: seq<string>,
    timeout: Duration)

  /** The fields of the SSH library's ClientConfig that Connect sets. */
  datatype ClientConfig = ClientConfig(
    rand: Option<Handle>,
    rekeyThreshold: uint64,
    keyExchanges: seq<string>,
    ciphers: seq<string>,
    macs: seq<string>,
    user: string,
    auth: seq<Handle>,
    hostKeyCallback: Option<Handle>,
    bannerCallback: Option<Handle>,
    clientVersion: string,
    hostKeyAlgorithms: seq<string>,
    timeout: Duration)

  /**
    The caller's config after Connect has written the default client version
    into it: an empty version becomes "SSH-2.0-GoSSH", a set one is kept, and
    no other field changes.
  */
  function WithDefaultVersion(config: Config): (c: Config)
    ensures config.clientVersion == "" ==> c.clientVersion == DefaultClientVersion
    ensures config.clientVersion != "" ==> c.clientVersion == config.clientVersion
    ensures c.clientVersion != ""
    ensures c == config.(clientVersion := c.clientVersion)
  {
    if config.clientVersion == "" then config.(clientVersion := DefaultClientVersion) else config
  }

  /**
    The library configuration Connect builds: every field is the config's
    (the wrappers of auth methods and callbacks delegate unchanged, and a nil
    callback stays nil), except the timeout, which is always 15 seconds.
  */
  function ToClientConfig(config: Config): (cc: ClientConfig)
    ensures cc.timeout == DialTimeout
    ensures && cc.rand == config.rand && cc.rekeyThreshold == config.rekeyThreshold
            && cc.keyExchanges == config.keyExchanges && cc.ciphers == config.ciphers
            && cc.macs == config.macs && cc.user == config.user && cc.auth == config.auth
            && cc.hostKeyCallback == config.hostKeyCallback && cc.bannerCallback == config.bannerCallback
            && cc.clientVersion == config.clientVersion && cc.hostKeyAlgorithms == config.hostKeyAlgorithms
  {
    ClientConfig(config.rand, config.rekeyThreshold, config.keyExchanges, config.ciphers, config.macs,
                 config.user, config.auth, config.hostKeyCallback, config.bannerCallback,
                 config.clientVersion, config.hostKeyAlgorithms, DialTimeout)
  }

  /** An established connection, as the SSH library's Dial returns it. */
  type SshConn = nat

  /** The library's Dial over TCP: its result for an address and configuration. */
  type Dialer = (string, ClientConfig) -> Result<SshConn, Err>

  /**
    What Connect leaves behind: the caller's config (None when it was nil) and
    the client or the error it returns.
  */
  datatype ConnectOutcome = ConnectOutcome(callerConfig: Option<Config>, client: Result<SshConn, Err>)

  /**
    Connect: a nil config is rejected before dialling; otherwise the default
    version is written into the caller's config, which is then translated and
    dialled, and the dial's error, if any, is returned as it is.
  */
  function Connect(addr: string, config: Option<Config>, dial: Dialer): (r: ConnectOutcome)
    ensures config.None? ==> r == ConnectOutcome(None, Failure(InvalidConfig))
    ensures config.Some? ==> && r.callerConfig == Some(WithDefaultVersion(config.value))
                             && r.client == dial(addr, ToClientConfig(r.callerConfig.value))
  {
    if config.None? then ConnectOutcome(None, Failure(InvalidConfig))
    else
      var c := WithDefaultVersion(config.value);
      ConnectOutcome(Some(c), dial(addr, ToClientConfig(c)))
  }

  /** The SSH library always receives a non-empty client version and a 15 second timeout. */
  lemma DialedConfigIsComplete(addr: string, config: Config, dial: Dialer)
    ensures var c := Connect(addr, Some(config), dial).callerConfig.value;
      ToClientConfig(c).clientVersion != "" && ToClientConfig(c).timeout == DialTimeout
  {
  }

  /** The caller's Timeout has no effect: configs differing only there connect identically. */
  lemma TimeoutIgnored(addr: string, config: Config, timeout: Duration, dial: Dialer)
    ensures Connect(addr, Some(config.(timeout := timeout)), dial).client == Connect(addr, Some(config), dial).client
  {
    var a := WithDefaultVersion(config.(timeout := timeout));
    var b := WithDefaultVersion(config);
    assert ToClientConfig(a) == ToClientConfig(b);
  }

  /**
    Connecting again with the config a first Connect updated changes it no
    further and dials with the same library configuration.
  */
  lemma ReconnectIsStable(addr: string, config: Config, dial: Dialer)
    ensures var first := Connect(addr, Some(config), dial);
      var second := Connect(addr, first.callerConfig, dial);
      second.callerConfig == first.callerConfig && second.client == first.client
  {
  }

  /** client.go's copy loop: a cancelled copy returns the bytes written so far and a nil error. */
  method CopyBufferWithContext(source: seq<ReadResult>, replies: seq<WriteReply>, cancelAt: Option<nat>,
                               buf: array?<byte>, limit: Option<int>)
    returns (written: int, err: Option<Err>)
    requires forall k | 0 <= k < |source| :: |source[k].data| <= BufferLength(buf, limit)
    modifies buf
    ensures written == Copy(Client, source, replies, cancelAt).written
    ensures err == Copy(Client, source, replies, cancelAt).err
    ensures Copy(Client, source, replies, cancelAt).cancelled ==> err.None?
  {
    ghost var sent: seq<seq<byte>>;
    written, err, sent := CopyBuffer(Client, source, replies, cancelAt, buf, limit);
    CancellationStopsReading(Client, source, replies, cancelAt, 0, 0);
  }

  /** The cancel function BindConnToRemoteBuffer hands back. */
  type CancelHandle = nat

  /**
    BindConnToRemoteBuffer: when the remote dial fails it returns a nil cancel
    function and the dial's error; otherwise a cancel function and nil.
    `handle` stands for the context.WithCancel the success path creates.
  */
  function BindConnToRemoteBuffer(dial: Result<SshConn, Err>, handle: CancelHandle): (r: (Option<CancelHandle>, Option<Err>))
    ensures dial.Failure? ==> r == (None, Some(dial.error))
    ensures dial.Success? ==> r.0.Some? && r.1.None?
  {
    if dial.Failure? then (None, Some(dial.error)) else (Some(handle), None)
  }
}
