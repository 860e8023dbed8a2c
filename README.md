# healer response decoders and client configuration, in Dafny

This project models three files of healer, a Go client for the Kafka wire
protocol:

- `metadata_response.go`: the topology (Metadata v0) response decoder. It
  checks the frame length, reads the brokers and the topics with their
  partitions, folds the error codes into one error, and sorts topics by name
  and each topic's partitions by ID.
- `fetch_response.go`: the fetch response decoder. It reads topics,
  partitions and message sets. Keys and values use -1 for "absent". A
  message loop stops once the cursor reaches the end of the buffer.
- `config.go`: the broker, consumer and producer configurations, their
  defaults, the 38-entry per-API timeout vector, the projection of a
  consumer configuration onto a broker configuration, and the three
  validators.

Each decoder is modelled twice:

- as recursive functions (`Metadata.ParseMetadata`, `Fetch.ParseFetch`)
  that say what the bytes mean;
- as the source's step-by-step code: methods with one cursor, preallocated
  arrays filled by index, an error accumulator and in-place sorts.

Each method is proved to compute what the functions describe. The
functions are then tied to encoders written for this model (the repository
has none), by round-trip lemmas:

- Metadata: a frame built from a well-formed response decodes back to it.
- Fetch: the encoding of a well-formed response decodes back to it.

Modules:

- `Wrappers`: Option and Result.
- `Primitives`: byte and integer ranges, two's complement, big-endian reads
  and encoders.
- `Cursor`: counted reads, the generic decode loop, byte-layout facts.
- `Sorting`: an in-place sort by a `less` relation, the shape of
  `sort.Slice`.
- `Metadata` and `MetadataEncoding`.
- `Fetch` and `FetchEncoding`.
- `Config`.

Behaviour of the code worth noting, which the model follows:

- **Which error code is ignored.** The error treated as "no error" is
  `AllError[9]`, the table's entry for code 9. In the error-code table of
  the Kafka protocol guide, code 9 is REPLICA_NOT_AVAILABLE; "leader not
  available" is code 5. The registry is a parameter, so
  the model names the slot: `Metadata.ReplicaNotAvailable` is
  `ErrorKind(9)`.
- **How the error fold behaves.** Once the accumulator is set to that error,
  it is reset to nil. Later codes are therefore still examined. The result
  is the error of the first code that is non-zero and not `AllError[9]`
  (`Metadata.FirstReported`), so an ignored code early on does not hide a
  later one.
- **Partial fetch messages.** The fetch message loop stops early only when a
  message ends exactly at the end of the buffer. A message cut short is a
  read past the end, which panics in Go, so the model yields no response.
- **Sort order.** The sorts use `sort.Slice` with `<` on names and IDs. The
  result is ordered, with no later element less than an earlier one, so it
  is ascending but not strictly when two topics share a name or two
  partitions share an ID.
- **Message set size.** `MessageSetSize` is used as a number of messages,
  not a number of bytes.

## Model

| member | source | states |
|---|---|---|
| Primitives.ReadU32 | metadata_response.go:69 | a big-endian uint32 read succeeds exactly when four bytes remain at the offset |
| Primitives.ReadBytes | metadata_response.go:88 | the slice `payload[o:o+n]` exists exactly when n bytes remain, and is those bytes |
| Primitives.FromI32 | metadata_response.go:84 | the bit pattern of an int32 converts back to the same int32 |
| Primitives.ReadEncodedI32 | fetch_response.go:61 | four bytes in the big-endian two's-complement form of x read back as x |
| Primitives.ReadEncodedI16 | metadata_response.go:101 | two bytes in the big-endian two's-complement form of x read back as x |
| Primitives.ReadEncodedLength16 | metadata_response.go:86 | a 16-bit length field written for n < 2^16 reads back as n |
| Cursor.DecodeMany | metadata_response.go:81-92 | the make-and-fill-by-index loop over a counted run reads what `ParseMany` reads: all n items, one after another, or nothing when one fails |
| Cursor.CountedReadsBack | metadata_response.go:96-99 | a count followed by the encodings of the items reads back as that count and exactly those items |
| Metadata.ParseMetadata | metadata_response.go:64-75 | fewer than four bytes is out of range; a length mismatch happens exactly when length+4 differs from the buffer size and carries both numbers; a decoded response carries the correlation ID and broker count found at offsets 4 and 8 |
| Metadata.Int32sAdvance | metadata_response.go:132-138 | a run of n int32s takes 4n bytes and its k-th element is the int32 at offset o+4k |
| Metadata.BrokerLayout | metadata_response.go:84-91 | a broker is read exactly when its fields fit, with node ID, host length, host and port at offsets 0, 4, 6 and 6 + hostLen, and it takes 10 + hostLen bytes |
| Metadata.TopicHeaderLayout | metadata_response.go:101-115 | a topic header is read exactly when it fits, with code, name length, name and partition count at offsets 0, 2, 4 and 4 + nameLen |
| Metadata.PartitionLayout | metadata_response.go:119-145 | a partition's code, ID and leader sit at offsets 0, 2 and 6; its replica and ISR lists have exactly the counts read before them, element by element; it takes 18 + 4·(replicas + isr) bytes |
| Metadata.FoldAppend | metadata_response.go:96-147 | folding the codes of two runs equals folding the second from the result of the first, so topic and partition codes fold in decode order |
| Metadata.FoldIsFirstReported | metadata_response.go:121-126 | the accumulator after a run of codes is the error already held, or else the error of the first code that is non-zero and not `AllError[9]` |
| Metadata.FirstReportedAt | metadata_response.go:102-107 | if code k is the first reported one, the result is its error |
| Metadata.FirstReportedNone | metadata_response.go:100-126 | the result is nil exactly when every code is zero or maps to `AllError[9]` |
| Metadata.NameLessIrreflexive | metadata_response.go:152 | no topic name is less than itself under Go's byte-wise string order |
| Metadata.NameLessTransitive | metadata_response.go:152 | the byte-wise name order is transitive |
| Metadata.NameLessTotal | metadata_response.go:152 | of two distinct names, one is less than the other |
| Metadata.TopicLessIsStrictWeakOrder | metadata_response.go:151-153 | ordering topics by name is a strict weak order, as `sort.Slice` needs |
| Metadata.PartitionLessIsStrictWeakOrder | metadata_response.go:155-157 | ordering partitions by ID is a strict weak order |
| Metadata.DecodePartition | metadata_response.go:119-145 | one partition is read as `ParsePartition` reads it, and the accumulator takes its code |
| Metadata.DecodePartitions | metadata_response.go:116-146 | the partition loop reads the counted run of partitions, and the accumulator folds their codes in order |
| Metadata.DecodeTopicHeader | metadata_response.go:100-115 | a topic's code, name and partition count are read, and the accumulator takes the topic code |
| Metadata.DecodeTopic | metadata_response.go:99-146 | one topic is read with its partitions, its code folded before theirs |
| Metadata.DecodeTopics | metadata_response.go:96-147 | the topic loop reads the counted run of topics, and the accumulator is the fold of every code from nil |
| Metadata.DecodeBody | metadata_response.go:75-147 | everything after the length field is read as `ParseBody` describes, with the error fold over all codes |
| Metadata.SameShapes | metadata_response.go:154-158 | sorting partitions inside topics keeps each topic's code, name and partition multiset, and keeps the topics' name order |
| Metadata.SortPartitions | metadata_response.go:155-157 | one topic's partitions end up ordered by ID, a permutation of the originals, the rest of the topic unchanged |
| Metadata.SortEachTopicsPartitions | metadata_response.go:154-158 | every topic's partitions are sorted in place, each topic keeping its shape |
| Metadata.SortTopicsAndPartitions | metadata_response.go:151-158 | topics end up ordered by name, each topic's partitions ordered by ID, and the topics are a permutation of the decoded ones up to the order of their partitions |
| Metadata.NewMetadataResponse | metadata_response.go:64-161 | a bad frame yields exactly the failure `ParseMetadata` gives; otherwise the response is the decoded one, with header and brokers unchanged and topics and partitions sorted and permuted, and the error is that of the first reported code |
| MetadataEncoding.RoundTrip | metadata_response.go:64-160 | a frame holding the encoding of a well-formed response, followed by any bytes inside the frame, decodes to that response |
| MetadataEncoding.WrongLengthRefused | metadata_response.go:69-72 | a frame whose length field differs from the size of what follows is refused with both sizes, whatever it holds |
| Fetch.Repeat | fetch_response.go:69 | n copies of the zero message, as a freshly made slice holds |
| Fetch.ParseSet | fetch_response.go:69-103 | a set read for count n has exactly n entries |
| Fetch.NullableLayout | fetch_response.go:81-99 | a length of -1 gives an absent buffer and nothing more; a length k >= 0 gives exactly the next k bytes; anything else, or too few bytes, fails |
| Fetch.MessageLayout | fetch_response.go:71-99 | a message's fixed fields sit at fixed offsets, key and value follow, and it takes 26 + key + value bytes |
| Fetch.TopicDataLayout | fetch_response.go:61-69 | a partition's header takes 18 bytes with its fields as read, a negative set size never decodes, and the set has exactly set-size entries |
| Fetch.FetchTopicLayout | fetch_response.go:52-59 | a topic's name length, name and partition count sit at offsets 0, 2 and 2 + nameLen, and it has exactly as many partitions as that count |
| Fetch.FetchLayout | fetch_response.go:43-51 | the topic count is the u32 at offset 0 and the response is exactly that many topics read from offset 4 |
| Fetch.SetStopsAtEnd | fetch_response.go:100-102 | a message set is its first `read` messages, none but the last ending at the buffer's end, followed by zero messages; it stops short only at the end of the buffer |
| Fetch.CopyBytes | fetch_response.go:87 | the fresh key or value buffer holds the payload's bytes at that offset |
| Fetch.DecodeNullable | fetch_response.go:81-89 | a key or value is read as `ParseNullable` reads it |
| Fetch.DecodeMessage | fetch_response.go:71-99 | one message is read as `ParseMessage` reads it |
| Fetch.DecodeMessageSet | fetch_response.go:69-103 | the preallocated, filled-by-index message loop with its break reads what `ParseSet` reads |
| Fetch.DecodeMessages | fetch_response.go:70-103 | a partition's message set is read as `ParseSet` over `ParseMessage` describes |
| Fetch.DecodeTopicData | fetch_response.go:61-103 | one partition is read as `ParseTopicData` reads it |
| Fetch.DecodeTopicDatas | fetch_response.go:59-104 | a topic's partition loop reads the counted run of partitions |
| Fetch.DecodeFetchTopic | fetch_response.go:52-104 | one topic is read as `ParseFetchTopic` reads it |
| Fetch.DecodeFetchResponse | fetch_response.go:37-108 | the whole decoder yields exactly what `ParseFetch` describes, and nothing where Go panics |
| FetchEncoding.RoundTrip | fetch_response.go:37-108 | the encoding of a well-formed response, followed by any bytes, decodes to that response |
| FetchEncoding.ShortPartitionPadded | fetch_response.go:100-102 | a partition at the end of the buffer that announces more messages than it holds decodes to its messages followed by zero messages |
| Sorting.SortBy | metadata_response.go:151-153 | given a strict weak order, the array ends up ordered by it and is a permutation of what it held |
| Config.TruncDivTowardZero | config.go:85 | Go's division: quotient times divisor plus a remainder smaller than the divisor, the remainder taking the sign of the dividend |
| Config.Wrap64 | config.go:86 | a 64-bit `int` sum is the true sum modulo 2^64, and equals it when it fits |
| Config.BrokerConfigFromConsumer | config.go:24-30 | the broker configuration takes the consumer's connect timeout, timeout and per-API vector, and keeps the default 300000 ms refresh interval |
| Config.BrokerCheckValid | config.go:36-38 | every broker configuration is accepted |
| Config.EachApiTimeoutsAt | config.go:79-87 | the vector has 38 entries: join-group is session + 5000, offset-commit is session / 2 rounded toward zero, fetch is timeout + fetch wait wrapping at 64 bits, the rest the timeout |
| Config.FilledTouchesOnlyNil | config.go:104-112 | the fill step leaves a present vector alone, replaces a nil one by the computed vector, changes no other field, and a second fill changes nothing |
| Config.FillTimeouts | config.go:104-112 | allocating, filling and overwriting three entries gives exactly the fill step |
| Config.DefaultConsumerConfig | config.go:60-90 | the consumer defaults are the literal with the vector filled |
| Config.DefaultTimeouts | config.go:60-87 | with the defaults the vector holds 35000, 15000 and 30100 at join-group, offset-commit and fetch, and 30000 elsewhere |
| Config.ConsumerCheckValid | config.go:122-133 | accepted exactly when servers and group are set and offsets storage is 0 or 1; otherwise the first failing check's error, in order |
| Config.DefaultConsumerBroker | config.go:24-30 | a broker connection for the default consumer gets 30000 and 30000 ms, the consumer's vector and a 300000 ms refresh |
| Config.DefaultConsumerNeedsServersAndGroup | config.go:122-128 | the defaults are refused for missing servers, then for a missing group, and accepted once both are set |
| Config.ProducerCheckValid | config.go:176-196 | accepted exactly when servers are set, message count and flush interval are positive and the codec is none, gzip, snappy or lz4; otherwise the first failing check's error, in order |
| Config.DefaultProducerNeedsServers | config.go:152-167 | the producer defaults are refused only for missing servers and accepted as soon as servers are set |

## Left out

- JSON in `GetConsumerConfig` (config.go:93-102): the marshal and unmarshal are library calls. The fill step takes the configuration after the overrides as its input. Unmarshalling starts from the already filled defaults, so the vector can only be nil after the overrides if the input sets it to null.
- `getErrorFromErrorCode` and `AllError`: they are not part of this model. The decoder takes the code-to-error lookup as a parameter, and `AllError[9]` is the table slot 9.
- Go panics (a read past the end, a slice beyond the buffer, `make` with a negative size): they become an explicit failure, `OutOfRange` or `None`. The model does not include Go's allocation failure when a count is huge.
- Slice capacity: Go's `payload[a:b]` may reach past `len` up to `cap`. The model has only the bytes of the buffer.
- Values instead of pointers: brokers, topics and partitions are values, so there is no aliasing between them.
- Slice aliasing at config.go:28: the broker and consumer configurations share one backing array in Go. Dafny sequences are values, so this is a copy.
- Sorting.SortBy: Go's `sort.Slice` algorithm is replaced by an insertion sort. Only what `sort.Slice` promises is stated: ordered and a permutation. Go's placement of equal keys is not modelled.
- The `error` result of `DecodeFetchResponse`: it is always nil, so the decoder returns only the response or `None`.
- The unused declarations `zeroTopicMetadata` (metadata_response.go:35) and `brokerAddressNotSet` (config.go:33): nothing returns them.
- `DefaultBrokerConfig` and `DefaultProducerConfig`: the two literals are copied field for field from config.go:15-22 and config.go:152-167 and are their own specification. No lemma restates their values; `Config.BrokerConfigFromConsumer` states only the one broker default it keeps (the 300000 ms refresh), and `Config.DefaultProducerNeedsServers` states only how the validator treats the producer defaults.
- The API key constants `API_JoinGroup` (11), `API_OffsetCommitRequest` (8) and `API_FetchRequest` (1): their definitions are not part of this model. The values are Kafka's API keys.
- Go `int` is modelled as 64 bits wide, as on 64-bit platforms.
- MetadataEncoding.RoundTrip and FetchEncoding.RoundTrip: they are stated for well-formed responses, where every length and count fits its field and, for fetch, every set size equals the number of messages. The encoders are this model's own.
