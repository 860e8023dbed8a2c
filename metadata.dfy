/**
  The topology (Metadata v0) response decoder of metadata_response.go.

  The wire layout is

    length:u32 correlationID:u32
    brokerCount:u32 { nodeId:i32 hostLen:u16 host:bytes port:i32 }
    topicCount:u32 { topicErrorCode:i16 nameLen:u16 name:bytes partitionCount:u32
      { partitionErrorCode:i16 partitionID:i32 leader:i32
        replicaCount:u32 replicas:i32* isrCount:u32 isr:i32* } }

  The `Parse*` functions state what the bytes mean; `NewMetadataResponse`
  is the step-by-step decoder of the source (one cursor, preallocated arrays
  filled by index, an error accumulator, in-place sorts) and is proved to
  produce what the functions describe, sorted.
*/
module Metadata {
  import opened Wrappers
  import opened Primitives
  import opened Sorting
  import opened Cursor

  datatype BrokerInfo = BrokerInfo(nodeId: i32, host: seq<byte>, port: i32)

  datatype PartitionMetadataInfo = PartitionMetadataInfo(
    partitionErrorCode: i16,
    partitionID: i32,
    leader: i32,
    replicas: seq<i32>,
    isr: seq<i32>)

  datatype TopicMetadata = TopicMetadata(
    topicErrorCode: i16,
    topicName: seq<byte>,
    partitionMetadatas: seq<PartitionMetadataInfo>)

  datatype MetadataResponse = MetadataResponse(
    correlationID: u32,
    brokers: seq<BrokerInfo>,
    topicMetadatas: seq<TopicMetadata>)

  /**
    An entry of the client's error table `AllError`: `ErrorKind(i)` is the
    table's i-th error value.  The table and `getErrorFromErrorCode` are not
    part of this model; the decoder takes the code-to-error lookup as the
    parameter `errorOf`.
  */
  datatype ErrorKind = ErrorKind(slot: nat)

  /** `AllError[9]`, the error the decoder treats as no error at all. */
  const ReplicaNotAvailable: ErrorKind := ErrorKind(9)

  type Registry = i16 -> ErrorKind

  /** Why the decoder produced no response. */
  datatype Failure =
    | OutOfRange                                 // a read past the end (a Go panic)
    | LengthMismatch(expected: int, actual: int) // the frame length check

  /** Go's `(*MetadataResponse, error)`: a response with its folded error, or none. */
  datatype Outcome =
    | Decoded(response: MetadataResponse, err: Option<ErrorKind>)
    | Failed(failure: Failure)

  function ParseI32(s: seq<byte>, o: nat): (r: Option<(i32, nat)>)
    ensures r.Some? <==> o + 4 <= |s|
    ensures r.Some? ==> r.value.1 == o + 4
  {
    var x :- ReadI32(s, o);
    Some((x, o + 4))
  }

  /** metadata_response.go:83-91: NodeId, u16 host length, host bytes, Port. */
  function ParseBroker(s: seq<byte>, o: nat): (r: Option<(BrokerInfo, nat)>)
    ensures r.Some? ==> r.value.1 == o + 10 + |r.value.0.host|
  {
    var nodeId :- ReadI32(s, o);
    var hostLength :- ReadU16(s, o + 4);
    var host :- ReadBytes(s, o + 6, hostLength);
    var port :- ReadI32(s, o + 6 + hostLength);
    Some((BrokerInfo(nodeId, host, port), o + 10 + hostLength))
  }

  /** metadata_response.go:119-145. */
  function ParsePartition(s: seq<byte>, o: nat): (r: Option<(PartitionMetadataInfo, nat)>)
  {
    var code :- ReadI16(s, o);
    var id :- ReadI32(s, o + 2);
    var leader :- ReadI32(s, o + 6);
    var replicasCount :- ReadU32(s, o + 10);
    var replicas :- ParseMany(ParseI32, s, o + 14, replicasCount);
    var isrCount :- ReadU32(s, replicas.1);
    var isr :- ParseMany(ParseI32, s, replicas.1 + 4, isrCount);
    Some((PartitionMetadataInfo(code, id, leader, replicas.0, isr.0), isr.1))
  }

  /** What metadata_response.go:101-115 reads before a topic's partitions. */
  datatype TopicHeader = TopicHeader(code: i16, name: seq<byte>, partitionCount: u32, next: nat)

  function ParseTopicHeader(s: seq<byte>, o: nat): (r: Option<TopicHeader>)
    ensures r.Some? ==> r.value.next == o + 8 + |r.value.name|
  {
    var code :- ReadI16(s, o);
    var nameLength :- ReadU16(s, o + 2);
    var name :- ReadBytes(s, o + 4, nameLength);
    var count :- ReadU32(s, o + 4 + nameLength);
    Some(TopicHeader(code, name, count, o + 8 + nameLength))
  }

  function ParseTopic(s: seq<byte>, o: nat): Option<(TopicMetadata, nat)> {
    var h :- ParseTopicHeader(s, o);
    var ps :- ParseMany(ParsePartition, s, h.next, h.partitionCount);
    Some((TopicMetadata(h.code, h.name, ps.0), ps.1))
  }

  /** Everything after the length field, in wire order; the cursor is returned. */
  function ParseBody(s: seq<byte>, o: nat): Option<(MetadataResponse, nat)> {
    var correlationID :- ReadU32(s, o);
    var brokersCount :- ReadU32(s, o + 4);
    var brokers :- ParseMany(ParseBroker, s, o + 8, brokersCount);
    var topicsCount :- ReadU32(s, brokers.1);
    var topics :- ParseMany(ParseTopic, s, brokers.1 + 4, topicsCount);
    Some((MetadataResponse(correlationID, brokers.0, topics.0), topics.1))
  }

  /**
    The decoded response in wire order (before sorting).  The frame length is
    checked first; where the body ends is not checked, so trailing bytes
    inside the frame are ignored.
  */
  function ParseMetadata(s: seq<byte>): (r: Result<MetadataResponse, Failure>)
    ensures |s| < 4 ==> r == Failure(OutOfRange)
    ensures (r.Failure? && r.error.LengthMismatch?) <==>
              (|s| >= 4 && ReadU32(s, 0).value + 4 != |s|)
    ensures r.Failure? && r.error.LengthMismatch? ==>
              r.error == LengthMismatch(ReadU32(s, 0).value + 4, |s|)
    ensures r.Success? ==>
              && ReadU32(s, 8) == Some(|r.value.brokers|)
              && ReadU32(s, 4) == Some(r.value.correlationID)
  {
    if |s| < 4 then Failure(OutOfRange)
    else
      var responseLength: int := ReadU32(s, 0).value;
      if responseLength + 4 != |s| then Failure(LengthMismatch(responseLength + 4, |s|))
      else match ParseBody(s, 4)
        case None => Failure(OutOfRange)
        case Some((response, _)) => Success(response)
  }

  /** A run of n int32s takes 4n bytes, the k-th read at o + 4k. */
  lemma {:induction false} Int32sAdvance(s: seq<byte>, o: nat, n: nat)
    requires ParseMany(ParseI32, s, o, n).Some?
    ensures ParseMany(ParseI32, s, o, n).value.1 == o + 4 * n
    ensures forall k :: 0 <= k < n ==> ReadI32(s, o + 4 * k) == Some(ParseMany(ParseI32, s, o, n).value.0[k])
    decreases n
  {
    if n > 0 {
      var xs := ParseMany(ParseI32, s, o, n).value.0;
      var rest := ParseMany(ParseI32, s, o + 4, n - 1).value.0;
      Int32sAdvance(s, o + 4, n - 1);
      assert xs == [ReadI32(s, o).value] + rest;
      forall k | 1 <= k < n
        ensures ReadI32(s, o + 4 * k) == Some(xs[k])
      {
        assert o + 4 * k == (o + 4) + 4 * (k - 1);
      }
    }
  }

  /**
    metadata_response.go:84-91: a broker is read exactly when its node ID,
    host length, host and port are all there; the fields sit at offsets 0,
    4, 6 and 6 + hostLen.
  */
  lemma BrokerLayout(s: seq<byte>, o: nat)
    ensures ParseBroker(s, o).Some? <==> o + 6 <= |s| && o + 10 + ReadU16(s, o + 4).value <= |s|
    ensures ParseBroker(s, o).Some? ==>
      var (b, next) := ParseBroker(s, o).value;
      && ReadI32(s, o) == Some(b.nodeId)
      && ReadU16(s, o + 4) == Some(|b.host|)
      && b.host == s[o + 6..o + 6 + |b.host|]
      && ReadI32(s, o + 6 + |b.host|) == Some(b.port)
      && next == o + 10 + |b.host|
  {
  }

  /**
    metadata_response.go:101-115: a topic's code, name length, name and
    partition count sit at offsets 0, 2, 4 and 4 + nameLen.
  */
  lemma TopicHeaderLayout(s: seq<byte>, o: nat)
    ensures ParseTopicHeader(s, o).Some? <==> o + 4 <= |s| && o + 8 + ReadU16(s, o + 2).value <= |s|
    ensures ParseTopicHeader(s, o).Some? ==>
      var h := ParseTopicHeader(s, o).value;
      && ReadI16(s, o) == Some(h.code)
      && ReadU16(s, o + 2) == Some(|h.name|)
      && h.name == s[o + 4..o + 4 + |h.name|]
      && ReadU32(s, o + 4 + |h.name|) == Some(h.partitionCount)
  {
  }

  /**
    metadata_response.go:119-145: a partition's fields sit at fixed offsets,
    its replica and ISR lists have exactly the counts read before them, and
    it takes 18 + 4 * (replicas + isr) bytes.
  */
  lemma PartitionLayout(s: seq<byte>, o: nat)
    requires ParsePartition(s, o).Some?
    ensures var (p, next) := ParsePartition(s, o).value;
      && ReadI16(s, o) == Some(p.partitionErrorCode)
      && ReadI32(s, o + 2) == Some(p.partitionID)
      && ReadI32(s, o + 6) == Some(p.leader)
      && ReadU32(s, o + 10) == Some(|p.replicas|)
      && (forall k :: 0 <= k < |p.replicas| ==> ReadI32(s, o + 14 + 4 * k) == Some(p.replicas[k]))
      && ReadU32(s, o + 14 + 4 * |p.replicas|) == Some(|p.isr|)
      && (forall k :: 0 <= k < |p.isr| ==> ReadI32(s, o + 18 + 4 * |p.replicas| + 4 * k) == Some(p.isr[k]))
      && next == o + 18 + 4 * (|p.replicas| + |p.isr|)
  {
    var replicasCount: nat := ReadU32(s, o + 10).value;
    var replicas := ParseMany(ParseI32, s, o + 14, replicasCount).value;
    Int32sAdvance(s, o + 14, replicasCount);
    var isrCount: nat := ReadU32(s, replicas.1).value;
    var isr := ParseMany(ParseI32, s, replicas.1 + 4, isrCount).value;
    Int32sAdvance(s, replicas.1 + 4, isrCount);
    assert ParsePartition(s, o).value.1 == isr.1;
    assert ParsePartition(s, o).value.0.replicas == replicas.0;
    assert ParsePartition(s, o).value.0.isr == isr.0;
  }

  // ---------------------------------------------------------------------
  // The error fold (metadata_response.go:102-107 and 121-126).

  /** A code that makes the decoder return an error: non-zero and not `AllError[9]`. */
  predicate Reported(c: i16, errorOf: Registry) {
    c != 0 && errorOf(c) != ReplicaNotAvailable
  }

  /** One update of the `err` accumulator by the next code in decode order. */
  function Step(err: Option<ErrorKind>, c: i16, errorOf: Registry): Option<ErrorKind> {
    if err.None? && c != 0 then
      if errorOf(c) == ReplicaNotAvailable then None else Some(errorOf(c))
    else err
  }

  /** The accumulator after the codes `cs`, starting from `err`. */
  function FoldErrors(err: Option<ErrorKind>, cs: seq<i16>, errorOf: Registry): Option<ErrorKind>
    decreases |cs|
  {
    if cs == [] then err
    else Step(FoldErrors(err, cs[..|cs| - 1], errorOf), cs[|cs| - 1], errorOf)
  }

  /** Reference definition: the error of the first reported code, if any. */
  function FirstReported(cs: seq<i16>, errorOf: Registry): Option<ErrorKind> {
    if cs == [] then None
    else if Reported(cs[0], errorOf) then Some(errorOf(cs[0]))
    else FirstReported(cs[1..], errorOf)
  }

  function PartitionCodes(p: PartitionMetadataInfo): seq<i16> {
    [p.partitionErrorCode]
  }

  /** A topic's codes in decode order: the topic's own, then its partitions'. */
  function TopicCodes(t: TopicMetadata): seq<i16> {
    [t.topicErrorCode] + Flatten(PartitionCodes, t.partitionMetadatas)
  }

  /** The codes of a run of items, item after item. */
  function Flatten<T>(codes: T -> seq<i16>, xs: seq<T>): seq<i16>
    decreases |xs|
  {
    if xs == [] then [] else Flatten(codes, xs[..|xs| - 1]) + codes(xs[|xs| - 1])
  }

  /** All the codes of a response's topics in decode order. */
  function Codes(ts: seq<TopicMetadata>): seq<i16> {
    Flatten(TopicCodes, ts)
  }

  lemma FoldSnoc(err: Option<ErrorKind>, cs: seq<i16>, c: i16, errorOf: Registry)
    ensures FoldErrors(err, cs + [c], errorOf) == Step(FoldErrors(err, cs, errorOf), c, errorOf)
  {
    assert (cs + [c])[..|cs|] == cs;
  }

  lemma {:induction false} FoldAppend(err: Option<ErrorKind>, a: seq<i16>, b: seq<i16>, errorOf: Registry)
    ensures FoldErrors(err, a + b, errorOf) == FoldErrors(FoldErrors(err, a, errorOf), b, errorOf)
    decreases |b|
  {
    if b == [] {
      assert a + b == a;
    } else {
      var b', c := b[..|b| - 1], b[|b| - 1];
      assert b == b' + [c];
      assert a + b == (a + b') + [c];
      FoldSnoc(err, a + b', c, errorOf);
      FoldAppend(err, a, b', errorOf);
      FoldSnoc(FoldErrors(err, a, errorOf), b', c, errorOf);
    }
  }

  lemma {:induction false} FirstReportedSnoc(cs: seq<i16>, c: i16, errorOf: Registry)
    ensures FirstReported(cs + [c], errorOf) ==
      if FirstReported(cs, errorOf).Some? then FirstReported(cs, errorOf)
      else FirstReported([c], errorOf)
  {
    if cs != [] {
      assert (cs + [c])[0] == cs[0];
      assert (cs + [c])[1..] == cs[1..] + [c];
      FirstReportedSnoc(cs[1..], c, errorOf);
    } else {
      assert cs + [c] == [c];
    }
  }

  /**
    The accumulator keeps the first error it is set to; while it is nil, an
    `AllError[9]` code leaves it nil and later codes are still examined.  So
    folding from nil yields exactly the first reported code's error.
  */
  lemma {:induction false} FoldIsFirstReported(err: Option<ErrorKind>, cs: seq<i16>, errorOf: Registry)
    ensures FoldErrors(err, cs, errorOf) == if err.Some? then err else FirstReported(cs, errorOf)
    decreases |cs|
  {
    if cs != [] {
      var cs', c := cs[..|cs| - 1], cs[|cs| - 1];
      assert cs == cs' + [c];
      FoldIsFirstReported(err, cs', errorOf);
      FirstReportedSnoc(cs', c, errorOf);
    }
  }

  /** The first reported code, and no other, determines the error. */
  lemma {:induction false} FirstReportedAt(cs: seq<i16>, errorOf: Registry, k: nat)
    requires k < |cs| && Reported(cs[k], errorOf)
    requires forall j :: 0 <= j < k ==> !Reported(cs[j], errorOf)
    ensures FirstReported(cs, errorOf) == Some(errorOf(cs[k]))
  {
    if k > 0 {
      FirstReportedAt(cs[1..], errorOf, k - 1);
    }
  }

  /** The error is nil exactly when no code is reported. */
  lemma {:induction false} FirstReportedNone(cs: seq<i16>, errorOf: Registry)
    ensures FirstReported(cs, errorOf).None? <==> forall k :: 0 <= k < |cs| ==> !Reported(cs[k], errorOf)
  {
    if cs != [] {
      FirstReportedNone(cs[1..], errorOf);
      assert forall k :: 1 <= k < |cs| ==> cs[k] == cs[1..][k - 1];
    }
  }

  // ---------------------------------------------------------------------
  // The orders the decoder sorts by (metadata_response.go:151-158).

  /** Go's `<` on strings: bytewise lexicographic order. */
  predicate NameLess(a: seq<byte>, b: seq<byte>)
    decreases |a|
  {
    if |a| == 0 then |b| > 0
    else if |b| == 0 then false
    else if a[0] != b[0] then a[0] < b[0]
    else NameLess(a[1..], b[1..])
  }

  predicate TopicLess(t: TopicMetadata, u: TopicMetadata) {
    NameLess(t.topicName, u.topicName)
  }

  predicate PartitionLess(p: PartitionMetadataInfo, q: PartitionMetadataInfo) {
    p.partitionID < q.partitionID
  }

  lemma {:induction false} NameLessIrreflexive(a: seq<byte>)
    ensures !NameLess(a, a)
    decreases |a|
  {
    if |a| > 0 {
      NameLessIrreflexive(a[1..]);
    }
  }

  lemma {:induction false} NameLessTransitive(a: seq<byte>, b: seq<byte>, c: seq<byte>)
    requires NameLess(a, b) && NameLess(b, c)
    ensures NameLess(a, c)
    decreases |a|
  {
    if |a| > 0 && |b| > 0 && |c| > 0 && a[0] == b[0] == c[0] {
      NameLessTransitive(a[1..], b[1..], c[1..]);
    }
  }

  lemma {:induction false} NameLessTotal(a: seq<byte>, b: seq<byte>)
    requires a != b
    ensures NameLess(a, b) || NameLess(b, a)
    decreases |a|
  {
    if |a| > 0 && |b| > 0 && a[0] == b[0] {
      assert a == [a[0]] + a[1..] && b == [b[0]] + b[1..];
      NameLessTotal(a[1..], b[1..]);
    }
  }

  /** The topic order is one `sort.Slice` accepts. */
  lemma TopicLessIsStrictWeakOrder()
    ensures StrictWeakOrder(TopicLess)
  {
    forall t: TopicMetadata ensures !TopicLess(t, t) {
      NameLessIrreflexive(t.topicName);
    }
    forall t: TopicMetadata, u: TopicMetadata, v: TopicMetadata | TopicLess(t, u) && TopicLess(u, v)
      ensures TopicLess(t, v)
    {
      NameLessTransitive(t.topicName, u.topicName, v.topicName);
    }
    forall t: TopicMetadata, u: TopicMetadata, v: TopicMetadata | !TopicLess(t, u) && !TopicLess(u, v)
      ensures !TopicLess(t, v)
    {
      var a, b, c := t.topicName, u.topicName, v.topicName;
      if NameLess(a, c) {
        if a != b { NameLessTotal(a, b); }
        if b != c { NameLessTotal(b, c); }
        if a != b && b != c { NameLessTransitive(c, b, a); }
        NameLessIrreflexive(a);
        if NameLess(c, a) { NameLessTransitive(a, c, a); }
      }
    }
  }

  lemma PartitionLessIsStrictWeakOrder()
    ensures StrictWeakOrder(PartitionLess)
  {
    forall p: PartitionMetadataInfo, q: PartitionMetadataInfo, r: PartitionMetadataInfo
      ensures PartitionLess(p, q) && PartitionLess(q, r) ==> PartitionLess(p, r)
      ensures !PartitionLess(p, q) && !PartitionLess(q, r) ==> !PartitionLess(p, r)
    {
    }
  }

  /**
    What sorting must keep of a topic: its fields, and its partitions as a
    multiset (their order is what the partition sort changes).
  */
  datatype TopicShape = TopicShape(code: i16, name: seq<byte>, partitions: multiset<PartitionMetadataInfo>)

  function Shape(t: TopicMetadata): TopicShape {
    TopicShape(t.topicErrorCode, t.topicName, multiset(t.partitionMetadatas))
  }

  /**
    `sorted` is `raw` after the sorts: same header and brokers, topics ordered
    by name and a permutation of the decoded ones, each topic's partitions
    ordered by ID and a permutation of its decoded partitions.
  */
  ghost predicate SortedResponseOf(sorted: MetadataResponse, raw: MetadataResponse) {
    && sorted.correlationID == raw.correlationID
    && sorted.brokers == raw.brokers
    && SortedBy(sorted.topicMetadatas, TopicLess)
    && (forall i :: 0 <= i < |sorted.topicMetadatas| ==>
          SortedBy(sorted.topicMetadatas[i].partitionMetadatas, PartitionLess))
    && multiset(Map(Shape, sorted.topicMetadatas)) == multiset(Map(Shape, raw.topicMetadatas))
  }

  // ---------------------------------------------------------------------
  // The step-by-step decoder.

  lemma FlattenSnoc<T>(codes: T -> seq<i16>, xs: seq<T>, x: T)
    ensures Flatten(codes, xs + [x]) == Flatten(codes, xs) + codes(x)
  {
    assert (xs + [x])[..|xs|] == xs;
  }

  lemma FoldOne(err: Option<ErrorKind>, c: i16, errorOf: Registry)
    ensures FoldErrors(err, [c], errorOf) == Step(err, c, errorOf)
  {
    assert [c][..0] == [];
  }

  /**
    The invariant of a counted decode loop that also updates the error
    accumulator: the items read so far are a prefix of the run, and `err` is
    the accumulator after their codes.
  */
  ghost predicate CountedSoFar<T>(parse: Parser<T>, codes: T -> seq<i16>, s: seq<byte>, o: nat, n: nat,
                                  err0: Option<ErrorKind>, errorOf: Registry,
                                  done: seq<T>, offset: nat, err: Option<ErrorKind>)
  {
    && ManySoFar(parse, s, o, n, done, offset)
    && err == FoldErrors(err0, Flatten(codes, done), errorOf)
  }

  lemma CountedStep<T>(parse: Parser<T>, codes: T -> seq<i16>, s: seq<byte>, o: nat, n: nat,
                       err0: Option<ErrorKind>, errorOf: Registry,
                       done: seq<T>, offset: nat, err: Option<ErrorKind>, item: (T, nat), err': Option<ErrorKind>)
    requires CountedSoFar(parse, codes, s, o, n, err0, errorOf, done, offset, err)
    requires |done| < n && parse(s, offset) == Some(item)
    requires err' == FoldErrors(err, codes(item.0), errorOf)
    ensures CountedSoFar(parse, codes, s, o, n, err0, errorOf, done + [item.0], item.1, err')
  {
    ManyStep(parse, s, o, n, done, offset, item);
    FlattenSnoc(codes, done, item.0);
    FoldAppend(err0, Flatten(codes, done), codes(item.0), errorOf);
  }

  /** One partition, metadata_response.go:118-145, and its error update. */
  method DecodePartition(s: seq<byte>, o: nat, err0: Option<ErrorKind>, errorOf: Registry)
    returns (r: Option<(PartitionMetadataInfo, nat)>, err: Option<ErrorKind>)
    ensures r == ParsePartition(s, o)
    ensures r.Some? ==> err == FoldErrors(err0, PartitionCodes(r.value.0), errorOf)
  {
    err := err0;
    var offset: nat := o;
    var code := ReadI16(s, offset);
    if code.None? {
      return None, err;
    }
    var partitionErrorCode := code.value;
    if err.None? && partitionErrorCode != 0 {
      err := Some(errorOf(partitionErrorCode));
      if err == Some(ReplicaNotAvailable) {
        err := None;
      }
    }
    FoldOne(err0, partitionErrorCode, errorOf);
    offset := offset + 2;
    var id := ReadI32(s, offset);
    if id.None? {
      return None, err;
    }
    offset := offset + 4;
    var leader := ReadI32(s, offset);
    if leader.None? {
      return None, err;
    }
    offset := offset + 4;
    var replicasCount := ReadU32(s, offset);
    if replicasCount.None? {
      return None, err;
    }
    offset := offset + 4;
    var replicas := DecodeMany(ParseI32, s, offset, replicasCount.value);
    if replicas.None? {
      return None, err;
    }
    offset := replicas.value.1;
    var isrCount := ReadU32(s, offset);
    if isrCount.None? {
      return None, err;
    }
    offset := offset + 4;
    var isr := DecodeMany(ParseI32, s, offset, isrCount.value);
    if isr.None? {
      return None, err;
    }
    offset := isr.value.1;
    var p := PartitionMetadataInfo(partitionErrorCode, id.value, leader.value, replicas.value.0, isr.value.0);
    return Some((p, offset)), err;
  }

  /** The partition loop of metadata_response.go:116-146. */
  method DecodePartitions(s: seq<byte>, o: nat, n: nat, err0: Option<ErrorKind>, errorOf: Registry)
    returns (r: Option<(seq<PartitionMetadataInfo>, nat)>, err: Option<ErrorKind>)
    ensures r == ParseMany(ParsePartition, s, o, n)
    ensures r.Some? ==> err == FoldErrors(err0, Flatten(PartitionCodes, r.value.0), errorOf)
  {
    var partitions := new PartitionMetadataInfo[n];
    var offset: nat := o;
    err := err0;
    var j := 0;
    ManyStart(ParsePartition, s, o, n);
    while j < n
      invariant 0 <= j <= n
      invariant CountedSoFar(ParsePartition, PartitionCodes, s, o, n, err0, errorOf, partitions[..j], offset, err)
    {
      ghost var errBefore := err;
      var partition;
      partition, err := DecodePartition(s, offset, err, errorOf);
      if partition.None? {
        ManyFails(ParsePartition, s, o, n, partitions[..j], offset);
        return None, err;
      }
      ghost var before := partitions[..j];
      partitions[j] := partition.value.0;
      assert partitions[..j + 1] == before + [partition.value.0];
      CountedStep(ParsePartition, PartitionCodes, s, o, n, err0, errorOf, before, offset, errBefore, partition.value, err);
      offset := partition.value.1;
      j := j + 1;
    }
    assert partitions[..] == partitions[..n];
    ManyEnd(ParsePartition, s, o, n, partitions[..], offset);
    return Some((partitions[..], offset)), err;
  }

  /** metadata_response.go:100-116: a topic's code, name and partition count, and the error update. */
  method DecodeTopicHeader(s: seq<byte>, o: nat, err0: Option<ErrorKind>, errorOf: Registry)
    returns (r: Option<TopicHeader>, err: Option<ErrorKind>)
    ensures r == ParseTopicHeader(s, o)
    ensures r.Some? ==> err == Step(err0, r.value.code, errorOf)
  {
    err := err0;
    var offset: nat := o;
    var code := ReadI16(s, offset);
    if code.None? {
      return None, err;
    }
    var topicErrorCode := code.value;
    if err.None? && topicErrorCode != 0 {
      err := Some(errorOf(topicErrorCode));
      if err == Some(ReplicaNotAvailable) {
        err := None;
      }
    }
    offset := offset + 2;
    var nameLength := ReadU16(s, offset);
    if nameLength.None? {
      return None, err;
    }
    offset := offset + 2;
    var name := ReadBytes(s, offset, nameLength.value);
    if name.None? {
      return None, err;
    }
    offset := offset + nameLength.value;
    var count := ReadU32(s, offset);
    if count.None? {
      return None, err;
    }
    offset := offset + 4;
    return Some(TopicHeader(topicErrorCode, name.value, count.value, offset)), err;
  }

  /** One topic, metadata_response.go:100-146, and its error updates. */
  method DecodeTopic(s: seq<byte>, o: nat, err0: Option<ErrorKind>, errorOf: Registry)
    returns (r: Option<(TopicMetadata, nat)>, err: Option<ErrorKind>)
    ensures r == ParseTopic(s, o)
    ensures r.Some? ==> err == FoldErrors(err0, TopicCodes(r.value.0), errorOf)
  {
    var header;
    header, err := DecodeTopicHeader(s, o, err0, errorOf);
    if header.None? {
      return None, err;
    }
    var h := header.value;
    FoldOne(err0, h.code, errorOf);
    var partitions;
    partitions, err := DecodePartitions(s, h.next, h.partitionCount, err, errorOf);
    if partitions.None? {
      return None, err;
    }
    var t := TopicMetadata(h.code, h.name, partitions.value.0);
    FoldAppend(err0, [h.code], Flatten(PartitionCodes, t.partitionMetadatas), errorOf);
    return Some((t, partitions.value.1)), err;
  }

  /** The topic loop of metadata_response.go:96-147. */
  method DecodeTopics(s: seq<byte>, o: nat, n: nat, errorOf: Registry)
    returns (r: Option<(seq<TopicMetadata>, nat)>, err: Option<ErrorKind>)
    ensures r == ParseMany(ParseTopic, s, o, n)
    ensures r.Some? ==> err == FoldErrors(None, Codes(r.value.0), errorOf)
  {
    var topics := new TopicMetadata[n];
    var offset: nat := o;
    err := None;
    var i := 0;
    ManyStart(ParseTopic, s, o, n);
    while i < n
      invariant 0 <= i <= n
      invariant CountedSoFar(ParseTopic, TopicCodes, s, o, n, None, errorOf, topics[..i], offset, err)
    {
      ghost var errBefore := err;
      var topic;
      topic, err := DecodeTopic(s, offset, err, errorOf);
      if topic.None? {
        ManyFails(ParseTopic, s, o, n, topics[..i], offset);
        return None, err;
      }
      ghost var before := topics[..i];
      topics[i] := topic.value.0;
      assert topics[..i + 1] == before + [topic.value.0];
      CountedStep(ParseTopic, TopicCodes, s, o, n, None, errorOf, before, offset, errBefore, topic.value, err);
      offset := topic.value.1;
      i := i + 1;
    }
    assert topics[..] == topics[..n];
    ManyEnd(ParseTopic, s, o, n, topics[..], offset);
    return Some((topics[..], offset)), err;
  }

  /** Topics agreeing shape by shape have the same image and the same name order. */
  lemma {:induction false} SameShapes(a: seq<TopicMetadata>, b: seq<TopicMetadata>)
    requires |a| == |b|
    requires forall k :: 0 <= k < |a| ==> Shape(a[k]) == Shape(b[k])
    ensures Map(Shape, a) == Map(Shape, b)
    ensures SortedBy(b, TopicLess) ==> SortedBy(a, TopicLess)
  {
    forall k | 0 <= k < |a|
      ensures Map(Shape, a)[k] == Map(Shape, b)[k]
    {
      MapAt(Shape, a, k);
      MapAt(Shape, b, k);
    }
    forall p, q | 0 <= p < q < |a|
      ensures TopicLess(a[q], a[p]) == TopicLess(b[q], b[p])
    {
      assert Shape(a[p]) == Shape(b[p]) && Shape(a[q]) == Shape(b[q]);
    }
  }

  /** metadata_response.go:155-157: one topic's partitions sorted by ID. */
  method SortPartitions(t: TopicMetadata) returns (u: TopicMetadata)
    ensures Shape(u) == Shape(t)
    ensures SortedBy(u.partitionMetadatas, PartitionLess)
  {
    PartitionLessIsStrictWeakOrder();
    var ps := t.partitionMetadatas;
    var pa := new PartitionMetadataInfo[|ps|](k requires 0 <= k < |ps| => ps[k]);
    assert pa[..] == ps;
    SortBy(pa, PartitionLess);
    u := t.(partitionMetadatas := pa[..]);
  }

  /** metadata_response.go:155-157: every topic's partitions sorted by ID, in place. */
  method SortEachTopicsPartitions(topics: array<TopicMetadata>)
    modifies topics
    ensures forall k :: 0 <= k < topics.Length ==> Shape(topics[k]) == Shape(old(topics[k]))
    ensures forall k :: 0 <= k < topics.Length ==> SortedBy(topics[k].partitionMetadatas, PartitionLess)
  {
    var i := 0;
    while i < topics.Length
      invariant 0 <= i <= topics.Length
      invariant forall k :: 0 <= k < topics.Length ==> Shape(topics[k]) == Shape(old(topics[k]))
      invariant forall k :: 0 <= k < i ==> SortedBy(topics[k].partitionMetadatas, PartitionLess)
    {
      topics[i] := SortPartitions(topics[i]);
      i := i + 1;
    }
  }

  /**
    metadata_response.go:151-158: sort the topics by name in place, then
    each topic's partitions by ID.
  */
  method SortTopicsAndPartitions(topics: array<TopicMetadata>)
    modifies topics
    ensures SortedBy(topics[..], TopicLess)
    ensures forall i :: 0 <= i < topics.Length ==> SortedBy(topics[i].partitionMetadatas, PartitionLess)
    ensures multiset(Map(Shape, topics[..])) == multiset(Map(Shape, old(topics[..])))
  {
    TopicLessIsStrictWeakOrder();
    SortBy(topics, TopicLess);
    ghost var byName := topics[..];
    MapPreservesPermutation(Shape, byName, old(topics[..]));
    SortEachTopicsPartitions(topics);
    SameShapes(topics[..], byName);
  }

  /** metadata_response.go:75-148: everything after the length field. */
  method DecodeBody(payload: seq<byte>, errorOf: Registry)
    returns (r: Option<(MetadataResponse, nat)>, err: Option<ErrorKind>)
    ensures r == ParseBody(payload, 4)
    ensures r.Some? ==> err == FoldErrors(None, Codes(r.value.0.topicMetadatas), errorOf)
  {
    err := None;
    var offset: nat := 4;
    var correlationID := ReadU32(payload, offset);
    if correlationID.None? {
      return None, err;
    }
    offset := offset + 4;
    var brokersCount := ReadU32(payload, offset);
    if brokersCount.None? {
      return None, err;
    }
    offset := offset + 4;
    var brokers := DecodeMany(ParseBroker, payload, offset, brokersCount.value);
    if brokers.None? {
      return None, err;
    }
    offset := brokers.value.1;
    var topicsCount := ReadU32(payload, offset);
    if topicsCount.None? {
      return None, err;
    }
    offset := offset + 4;
    var topics;
    topics, err := DecodeTopics(payload, offset, topicsCount.value, errorOf);
    if topics.None? {
      return None, err;
    }
    var response := MetadataResponse(correlationID.value, brokers.value.0, topics.value.0);
    return Some((response, topics.value.1)), err;
  }

  /**
    metadata_response.go:64-161.  A frame whose length field disagrees with
    the buffer yields no response; otherwise the response is the decoded one,
    sorted, whatever error codes it carries, and the error is the one of the
    first reported code in decode order.
  */
  method NewMetadataResponse(payload: seq<byte>, errorOf: Registry) returns (outcome: Outcome)
    ensures ParseMetadata(payload).Failure? ==> outcome == Failed(ParseMetadata(payload).error)
    ensures ParseMetadata(payload).Success? ==>
      && outcome.Decoded?
      && SortedResponseOf(outcome.response, ParseMetadata(payload).value)
      && outcome.err == FirstReported(Codes(ParseMetadata(payload).value.topicMetadatas), errorOf)
  {
    var length := ReadU32(payload, 0);
    if length.None? {
      return Failed(OutOfRange);
    }
    var responseLength := length.value;
    if responseLength as int + 4 != |payload| {
      return Failed(LengthMismatch(responseLength as int + 4, |payload|));
    }
    var body, err := DecodeBody(payload, errorOf);
    if body.None? {
      return Failed(OutOfRange);
    }
    var raw := body.value.0;
    FoldIsFirstReported(None, Codes(raw.topicMetadatas), errorOf);
    var decoded := raw.topicMetadatas;
    var topics := new TopicMetadata[|decoded|](k requires 0 <= k < |decoded| => decoded[k]);
    assert topics[..] == decoded;
    SortTopicsAndPartitions(topics);
    outcome := Decoded(raw.(topicMetadatas := topics[..]), err);
  }
}
