/**
  The client configuration of config.go: the broker, consumer and producer
  configurations, their defaults, the per-API timeout vector, the projection
  of a consumer configuration onto a broker configuration, and the three
  validators.

  Go's `int` is 64 bits wide here; a sum that can leave that range wraps
  explicitly, and Go's integer division truncates toward zero.  A nil slice
  is `None`, an empty one `Some([])`.
*/
module Config {
  import opened Wrappers
  import opened Primitives

  datatype BrokerConfig = BrokerConfig(
    connectTimeoutMS: i64,
    timeoutMS: i64,
    timeoutMSForEachAPI: Option<seq<i64>>,
    metadataRefreshIntervalMS: i64)

  datatype ConsumerConfig = ConsumerConfig(
    bootstrapServers: string,
    clientID: string,
    groupID: string,
    retryBackOffMS: i64,
    metadataMaxAgeMS: i64,
    sessionTimeoutMS: i32,
    fetchMaxWaitMS: i32,
    fetchMaxBytes: i32,
    fetchMinBytes: i32,
    fromBeginning: bool,
    autoCommit: bool,
    commitAfterFetch: bool,
    autoCommitIntervalMS: i64,
    offsetsStorage: i64,
    connectTimeoutMS: i64,
    timeoutMS: i64,
    timeoutMSForEachAPI: Option<seq<i64>>)

  datatype ProducerConfig = ProducerConfig(
    bootstrapServers: string,
    clientID: string,
    acks: i16,
    compressionType: string,
    batchSize: i64,
    messageMaxCount: i64,
    flushIntervalMS: i64,
    metadataMaxAgeMS: i64,
    fetchTopicMetaDataRetrys: i64,
    connectionsMaxIdleMS: i64,
    retries: i64,
    requestTimeoutMS: i32)

  /** The error values the validators return. */
  datatype ConfigError =
    | BootstrapServersNotSet
    | EmptyGroupID
    | InvalidOffsetsStorageConfig
    | MessageMaxCountError
    | FlushIntervalMSError
    | UnknownCompressionType

  /** The number of entries of the per-API timeout vector. */
  const ApiCount: nat := 38

  /** The API keys whose timeouts differ from the general one (Kafka's API keys). */
  const ApiJoinGroup: nat := 11
  const ApiOffsetCommitRequest: nat := 8
  const ApiFetchRequest: nat := 1

  // ---------------------------------------------------------------------
  // Go's integer arithmetic.

  /** Go's `x / d` on integers: the quotient rounded toward zero. */
  function TruncDiv(x: int, d: int): int
    requires d > 0
  {
    if x >= 0 then x / d else -((-x) / d)
  }

  /** Go's definition of `/` and `%`: x == q*d + r with |r| < d, and r has the sign of x. */
  lemma TruncDivTowardZero(x: int, d: int)
    requires d > 0
    ensures var q := TruncDiv(x, d); var r := x - q * d;
      && -d < r < d
      && (x >= 0 ==> r >= 0)
      && (x < 0 ==> r <= 0)
  {
  }

  /** A 64-bit `int` sum in Go: the result taken modulo 2^64, as a signed value. */
  function Wrap64(x: int): (r: i64)
    ensures (r - x) % 0x1_0000_0000_0000_0000 == 0
    ensures -0x8000_0000_0000_0000 <= x < 0x8000_0000_0000_0000 ==> r == x
  {
    ToI64(x % 0x1_0000_0000_0000_0000)
  }

  // ---------------------------------------------------------------------
  // Broker configuration (config.go:8-38).

  function DefaultBrokerConfig(): BrokerConfig {
    BrokerConfig(60000, 30000, Some([]), 300 * 1000)
  }

  /** config.go:24-30: a fresh default with the consumer's connection timeouts. */
  function BrokerConfigFromConsumer(c: ConsumerConfig): (b: BrokerConfig)
    ensures b.connectTimeoutMS == c.connectTimeoutMS
    ensures b.timeoutMS == c.timeoutMS
    ensures b.timeoutMSForEachAPI == c.timeoutMSForEachAPI
    ensures b.metadataRefreshIntervalMS == DefaultBrokerConfig().metadataRefreshIntervalMS == 300000
  {
    DefaultBrokerConfig().(
      connectTimeoutMS := c.connectTimeoutMS,
      timeoutMS := c.timeoutMS,
      timeoutMSForEachAPI := c.timeoutMSForEachAPI)
  }

  /** config.go:36-38: every broker configuration is accepted. */
  function BrokerCheckValid(b: BrokerConfig): (r: Option<ConfigError>)
    ensures r.None?
  {
    None
  }

  // ---------------------------------------------------------------------
  // Consumer configuration (config.go:40-133).

  /** config.go:61-77: the literal, before the timeout vector is filled. */
  function ConsumerLiteral(): ConsumerConfig {
    ConsumerConfig(
      bootstrapServers := "",
      clientID := "",
      groupID := "",
      retryBackOffMS := 100,
      metadataMaxAgeMS := 300000,
      sessionTimeoutMS := 30000,
      fetchMaxWaitMS := 100,
      fetchMaxBytes := 10 * 1024 * 1024,
      fetchMinBytes := 1,
      fromBeginning := false,
      autoCommit := true,
      commitAfterFetch := false,
      autoCommitIntervalMS := 5000,
      offsetsStorage := 1,
      connectTimeoutMS := 30000,
      timeoutMS := 30000,
      timeoutMSForEachAPI := None)
  }

  /**
    The vector the fill step builds, in the code's own order: every entry
    the general timeout, then three entries overwritten.
  */
  function EachApiTimeouts(c: ConsumerConfig): seq<i64> {
    seq(ApiCount, _ => c.timeoutMS)
      [ApiJoinGroup := c.sessionTimeoutMS as int + 5000]
      [ApiOffsetCommitRequest := TruncDiv(c.sessionTimeoutMS as int, 2)]
      [ApiFetchRequest := Wrap64(c.timeoutMS as int + c.fetchMaxWaitMS as int)]
  }

  /**
    The entries of the vector one by one: 38 of them, the join-group one the
    session timeout plus 5000, the offset-commit one half the session
    timeout (rounded toward zero), the fetch one the general timeout plus the
    fetch wait (wrapping at 64 bits), and every other the general timeout.
  */
  lemma EachApiTimeoutsAt(c: ConsumerConfig, i: nat)
    requires i < ApiCount
    ensures |EachApiTimeouts(c)| == ApiCount
    ensures EachApiTimeouts(c)[i] ==
      if i == ApiJoinGroup then c.sessionTimeoutMS as int + 5000
      else if i == ApiOffsetCommitRequest then TruncDiv(c.sessionTimeoutMS as int, 2)
      else if i == ApiFetchRequest then Wrap64(c.timeoutMS as int + c.fetchMaxWaitMS as int)
      else c.timeoutMS as int
  {
  }

  /** config.go:79-87 and 104-112: the vector is built only when it is nil. */
  function Filled(c: ConsumerConfig): ConsumerConfig {
    if c.timeoutMSForEachAPI.None? then c.(timeoutMSForEachAPI := Some(EachApiTimeouts(c))) else c
  }

  /** The fill step changes nothing but a nil vector, and doing it again changes nothing. */
  lemma FilledTouchesOnlyNil(c: ConsumerConfig)
    ensures Filled(c).timeoutMSForEachAPI.Some?
    ensures c.timeoutMSForEachAPI.Some? ==> Filled(c) == c
    ensures c.timeoutMSForEachAPI.None? ==> Filled(c).timeoutMSForEachAPI == Some(EachApiTimeouts(c))
    ensures Filled(c).(timeoutMSForEachAPI := c.timeoutMSForEachAPI) == c
    ensures Filled(Filled(c)) == Filled(c)
  {
  }

  /**
    config.go:79-87 and 104-112: when the vector is nil, allocate 38
    entries, set each to the general timeout, then overwrite three.
  */
  method FillTimeouts(c: ConsumerConfig) returns (r: ConsumerConfig)
    ensures r == Filled(c)
  {
    r := c;
    if c.timeoutMSForEachAPI.None? {
      var timeouts := new i64[ApiCount];
      for i := 0 to ApiCount
        invariant forall j :: 0 <= j < i ==> timeouts[j] == c.timeoutMS
      {
        timeouts[i] := c.timeoutMS;
      }
      timeouts[ApiJoinGroup] := c.sessionTimeoutMS as int + 5000;
      timeouts[ApiOffsetCommitRequest] := TruncDiv(c.sessionTimeoutMS as int, 2);
      timeouts[ApiFetchRequest] := Wrap64(c.timeoutMS as int + c.fetchMaxWaitMS as int);
      assert timeouts[..] == EachApiTimeouts(c);
      r := c.(timeoutMSForEachAPI := Some(timeouts[..]));
    }
  }

  /** The consumer defaults, vector included. */
  function DefaultConsumer(): ConsumerConfig {
    Filled(ConsumerLiteral())
  }

  /** config.go:60-90. */
  method DefaultConsumerConfig() returns (c: ConsumerConfig)
    ensures c == DefaultConsumer()
  {
    c := ConsumerLiteral();
    c := FillTimeouts(c);
  }

  /** With the defaults the vector holds 35000, 15000, 30100 and otherwise 30000. */
  lemma DefaultTimeouts(i: nat)
    requires i < ApiCount
    ensures DefaultConsumer().timeoutMSForEachAPI.Some?
    ensures |DefaultConsumer().timeoutMSForEachAPI.value| == ApiCount
    ensures DefaultConsumer().timeoutMSForEachAPI.value[i] ==
      if i == ApiJoinGroup then 35000
      else if i == ApiOffsetCommitRequest then 15000
      else if i == ApiFetchRequest then 30100
      else 30000
  {
    EachApiTimeoutsAt(ConsumerLiteral(), i);
  }

  /**
    config.go:122-133: the first failing check, in the code's order
    (servers, then group, then offsets storage), or nil.
  */
  function ConsumerCheckValid(c: ConsumerConfig): (r: Option<ConfigError>)
    ensures r.None? <==> c.bootstrapServers != "" && c.groupID != "" && c.offsetsStorage in {0, 1}
    ensures r == Some(BootstrapServersNotSet) <==> c.bootstrapServers == ""
    ensures r == Some(EmptyGroupID) <==> c.bootstrapServers != "" && c.groupID == ""
    ensures r == Some(InvalidOffsetsStorageConfig) <==>
              c.bootstrapServers != "" && c.groupID != "" && c.offsetsStorage !in {0, 1}
  {
    if c.bootstrapServers == "" then Some(BootstrapServersNotSet)
    else if c.groupID == "" then Some(EmptyGroupID)
    else if c.offsetsStorage != 0 && c.offsetsStorage != 1 then Some(InvalidOffsetsStorageConfig)
    else None
  }

  /** The broker connection of a consumer gets the consumer's timeouts and the default refresh interval. */
  lemma DefaultConsumerBroker()
    ensures BrokerConfigFromConsumer(DefaultConsumer()).connectTimeoutMS == 30000
    ensures BrokerConfigFromConsumer(DefaultConsumer()).timeoutMS == 30000
    ensures BrokerConfigFromConsumer(DefaultConsumer()).timeoutMSForEachAPI == DefaultConsumer().timeoutMSForEachAPI
    ensures BrokerConfigFromConsumer(DefaultConsumer()).metadataRefreshIntervalMS == 300000
  {
  }

  /** The defaults name no servers and no group, so they are rejected until both are set. */
  lemma DefaultConsumerNeedsServersAndGroup(servers: string, group: string)
    ensures ConsumerCheckValid(DefaultConsumer()) == Some(BootstrapServersNotSet)
    ensures servers != "" ==>
      ConsumerCheckValid(DefaultConsumer().(bootstrapServers := servers)) == Some(EmptyGroupID)
    ensures servers != "" && group != "" ==>
      ConsumerCheckValid(DefaultConsumer().(bootstrapServers := servers, groupID := group)) == None
  {
  }

  // ---------------------------------------------------------------------
  // Producer configuration (config.go:135-196).

  function DefaultProducerConfig(): ProducerConfig {
    ProducerConfig(
      bootstrapServers := "",
      clientID := "healer",
      acks := 1,
      compressionType := "none",
      batchSize := 16384,
      messageMaxCount := 1024,
      flushIntervalMS := 200,
      metadataMaxAgeMS := 300000,
      fetchTopicMetaDataRetrys := 3,
      connectionsMaxIdleMS := 540000,
      retries := 0,
      requestTimeoutMS := 30000)
  }

  /** The compression codecs the producer accepts. */
  const Codecs: set<string> := {"none", "gzip", "snappy", "lz4"}

  /**
    config.go:176-196: the first failing check, in the code's order
    (servers, message count, flush interval, compression codec), or nil.
  */
  function ProducerCheckValid(c: ProducerConfig): (r: Option<ConfigError>)
    ensures r.None? <==>
      c.bootstrapServers != "" && c.messageMaxCount > 0 && c.flushIntervalMS > 0 && c.compressionType in Codecs
    ensures r == Some(BootstrapServersNotSet) <==> c.bootstrapServers == ""
    ensures r == Some(MessageMaxCountError) <==> c.bootstrapServers != "" && c.messageMaxCount <= 0
    ensures r == Some(FlushIntervalMSError) <==>
      c.bootstrapServers != "" && c.messageMaxCount > 0 && c.flushIntervalMS <= 0
    ensures r == Some(UnknownCompressionType) <==>
      c.bootstrapServers != "" && c.messageMaxCount > 0 && c.flushIntervalMS > 0 && c.compressionType !in Codecs
  {
    if c.bootstrapServers == "" then Some(BootstrapServersNotSet)
    else if c.messageMaxCount <= 0 then Some(MessageMaxCountError)
    else if c.flushIntervalMS <= 0 then Some(FlushIntervalMSError)
    else if c.compressionType == "none" then None
    else if c.compressionType == "gzip" then None
    else if c.compressionType == "snappy" then None
    else if c.compressionType == "lz4" then None
    else Some(UnknownCompressionType)
  }

  /** The producer defaults are valid as soon as servers are named, and only then. */
  lemma DefaultProducerNeedsServers(servers: string)
    ensures ProducerCheckValid(DefaultProducerConfig()) == Some(BootstrapServersNotSet)
    ensures ProducerCheckValid(DefaultProducerConfig().(bootstrapServers := servers)).None? <==> servers != ""
  {
  }
}
