/**
  The encoder of the topology response and the round trip: a frame built
  from a well-formed response, with any bytes after the body inside the
  frame, decodes to that response.  This is the partner of the decoder in
  metadata_response.go; the repository has no encoder of its own.
*/
module MetadataEncoding {
  import opened Wrappers
  import opened Primitives
  import opened Cursor
  import opened Metadata

  function EncodeBroker(b: BrokerInfo): seq<byte> {
    EncodeI32(b.nodeId) + EncodeLength16(|b.host|) + b.host + EncodeI32(b.port)
  }

  function EncodePartition(p: PartitionMetadataInfo): seq<byte> {
    EncodeI16(p.partitionErrorCode) + EncodeI32(p.partitionID) + EncodeI32(p.leader)
      + EncodeCounted(EncodeI32, p.replicas) + EncodeCounted(EncodeI32, p.isr)
  }

  function EncodeTopic(t: TopicMetadata): seq<byte> {
    EncodeI16(t.topicErrorCode) + EncodeLength16(|t.topicName|) + t.topicName
      + EncodeCounted(EncodePartition, t.partitionMetadatas)
  }

  /** Everything after the length field. */
  function EncodeBody(r: MetadataResponse): seq<byte> {
    EncodeU32(r.correlationID) + EncodeCounted(EncodeBroker, r.brokers) + EncodeCounted(EncodeTopic, r.topicMetadatas)
  }

  /** The length field, then the frame's contents. */
  function Frame(body: seq<byte>): seq<byte> {
    EncodeLength32(|body|) + body
  }

  /** Every length and count fits the field that carries it. */
  predicate PartitionWellFormed(p: PartitionMetadataInfo) {
    |p.replicas| < 0x1_0000_0000 && |p.isr| < 0x1_0000_0000
  }

  predicate TopicWellFormed(t: TopicMetadata) {
    && |t.topicName| < 0x1_0000
    && |t.partitionMetadatas| < 0x1_0000_0000
    && forall k :: 0 <= k < |t.partitionMetadatas| ==> PartitionWellFormed(t.partitionMetadatas[k])
  }

  predicate WellFormed(r: MetadataResponse) {
    && |r.brokers| < 0x1_0000_0000
    && (forall k :: 0 <= k < |r.brokers| ==> |r.brokers[k].host| < 0x1_0000)
    && |r.topicMetadatas| < 0x1_0000_0000
    && forall k :: 0 <= k < |r.topicMetadatas| ==> TopicWellFormed(r.topicMetadatas[k])
  }

  // ---------------------------------------------------------------------
  // The proofs below read through aliases of the parsers (see
  // `Cursor.Alias`); only the `...OfParts` lemmas, which know nothing about
  // the bytes, look into the parsers' definitions.

  // ---------------------------------------------------------------------
  // Lists of int32s.

  lemma I32ReadsBack(pi: Parser<i32>, x: i32)
    requires SameParser(pi, ParseI32)
    ensures ReadsBack(pi, EncodeI32, x)
  {
    forall s: seq<byte>, o: nat ensures ReadsBackAt(pi, EncodeI32, x, s, o) {
      if Holds(s, o, EncodeI32(x)) {
        HoldsI32(s, o, x);
        assert At(s, o);
      }
    }
  }

  lemma Int32sReadBack(pi: Parser<i32>, xs: seq<i32>)
    requires SameParser(pi, ParseI32)
    ensures forall k :: 0 <= k < |xs| ==> ReadsBack(pi, EncodeI32, xs[k])
  {
    forall k | 0 <= k < |xs| ensures ReadsBack(pi, EncodeI32, xs[k]) {
      I32ReadsBack(pi, xs[k]);
    }
  }

  lemma Int32sBack(pi: Parser<i32>, xs: seq<i32>, s: seq<byte>, o: nat)
    requires SameParser(pi, ParseI32)
    requires |xs| < 0x1_0000_0000
    requires Holds(s, o, EncodeCounted(EncodeI32, xs))
    ensures ReadU32(s, o) == Some(|xs|)
    ensures ParseMany(pi, s, o + 4, |xs|) == Some((xs, o + |EncodeCounted(EncodeI32, xs)|))
  {
    Int32sReadBack(pi, xs);
    CountedReadsBack(pi, EncodeI32, xs, s, o);
  }

  // ---------------------------------------------------------------------
  // Brokers.

  lemma BrokerOfParts(pb: Parser<BrokerInfo>, s: seq<byte>, o: nat, b: BrokerInfo)
    requires SameParser(pb, ParseBroker)
    requires ReadI32(s, o) == Some(b.nodeId)
    requires ReadU16(s, o + 4) == Some(|b.host|)
    requires ReadBytes(s, o + 6, |b.host|) == Some(b.host)
    requires ReadI32(s, o + 6 + |b.host|) == Some(b.port)
    ensures pb(s, o) == Some((b, o + 10 + |b.host|))
  {
    assert At(s, o);
  }

  lemma BrokerAt(pb: Parser<BrokerInfo>, b: BrokerInfo, s: seq<byte>, o: nat)
    requires SameParser(pb, ParseBroker)
    requires |b.host| < 0x1_0000
    requires Holds(s, o, EncodeBroker(b))
    ensures pb(s, o) == Some((b, o + |EncodeBroker(b)|))
  {
    var id, len := EncodeI32(b.nodeId), EncodeLength16(|b.host|);
    HoldsSplit(s, o, id + len + b.host, EncodeI32(b.port));
    HoldsSplit(s, o, id + len, b.host);
    HoldsSplit(s, o, id, len);
    HoldsI32(s, o, b.nodeId);
    HoldsLength16(s, o + 4, |b.host|);
    HoldsBytes(s, o + 6, b.host);
    HoldsI32(s, o + 6 + |b.host|, b.port);
    BrokerOfParts(pb, s, o, b);
  }

  lemma BrokerReadsBack(pb: Parser<BrokerInfo>, b: BrokerInfo)
    requires SameParser(pb, ParseBroker)
    requires |b.host| < 0x1_0000
    ensures ReadsBack(pb, EncodeBroker, b)
  {
    forall s: seq<byte>, o: nat ensures ReadsBackAt(pb, EncodeBroker, b, s, o) {
      if Holds(s, o, EncodeBroker(b)) {
        BrokerAt(pb, b, s, o);
      }
    }
  }

  lemma BrokersReadBack(pb: Parser<BrokerInfo>, bs: seq<BrokerInfo>)
    requires SameParser(pb, ParseBroker)
    requires forall k :: 0 <= k < |bs| ==> |bs[k].host| < 0x1_0000
    ensures forall k :: 0 <= k < |bs| ==> ReadsBack(pb, EncodeBroker, bs[k])
  {
    forall k | 0 <= k < |bs| ensures ReadsBack(pb, EncodeBroker, bs[k]) {
      BrokerReadsBack(pb, bs[k]);
    }
  }

  lemma BrokersBack(pb: Parser<BrokerInfo>, bs: seq<BrokerInfo>, s: seq<byte>, o: nat)
    requires SameParser(pb, ParseBroker)
    requires |bs| < 0x1_0000_0000
    requires forall k :: 0 <= k < |bs| ==> |bs[k].host| < 0x1_0000
    requires Holds(s, o, EncodeCounted(EncodeBroker, bs))
    ensures ReadU32(s, o) == Some(|bs|)
    ensures ParseMany(pb, s, o + 4, |bs|) == Some((bs, o + |EncodeCounted(EncodeBroker, bs)|))
  {
    BrokersReadBack(pb, bs);
    CountedReadsBack(pb, EncodeBroker, bs, s, o);
  }

  // ---------------------------------------------------------------------
  // Partitions.

  /** `ParsePartition` with its int32 parser given. */
  ghost function PartitionWith(pi: Parser<i32>, s: seq<byte>, o: nat): Option<(PartitionMetadataInfo, nat)> {
    var code :- ReadI16(s, o);
    var id :- ReadI32(s, o + 2);
    var leader :- ReadI32(s, o + 6);
    var replicasCount :- ReadU32(s, o + 10);
    var replicas :- ParseMany(pi, s, o + 14, replicasCount);
    var isrCount :- ReadU32(s, replicas.1);
    var isr :- ParseMany(pi, s, replicas.1 + 4, isrCount);
    Some((PartitionMetadataInfo(code, id, leader, replicas.0, isr.0), isr.1))
  }

  lemma PartitionRead(pi: Parser<i32>, s: seq<byte>, o: nat)
    requires SameParser(pi, ParseI32)
    ensures ParsePartition(s, o) == PartitionWith(pi, s, o)
  {
    var replicasCount := ReadU32(s, o + 10);
    if replicasCount.Some? {
      SameMany(pi, ParseI32, s, o + 14, replicasCount.value);
      var replicas := ParseMany(ParseI32, s, o + 14, replicasCount.value);
      if replicas.Some? {
        var isrCount := ReadU32(s, replicas.value.1);
        if isrCount.Some? {
          SameMany(pi, ParseI32, s, replicas.value.1 + 4, isrCount.value);
        }
      }
    }
  }

  lemma PartitionLink(pp: Parser<PartitionMetadataInfo>, pi: Parser<i32>, s: seq<byte>, o: nat)
    requires SameParser(pp, ParsePartition) && SameParser(pi, ParseI32)
    ensures pp(s, o) == PartitionWith(pi, s, o)
  {
    PartitionRead(pi, s, o);
    SameAt(pp, ParsePartition, s, o);
  }

  lemma PartitionOfParts(pp: Parser<PartitionMetadataInfo>, pi: Parser<i32>, s: seq<byte>, o: nat,
                         p: PartitionMetadataInfo, replicasEnd: nat, isrEnd: nat)
    requires SameParser(pp, ParsePartition) && SameParser(pi, ParseI32)
    requires ReadI16(s, o) == Some(p.partitionErrorCode)
    requires ReadI32(s, o + 2) == Some(p.partitionID)
    requires ReadI32(s, o + 6) == Some(p.leader)
    requires ReadU32(s, o + 10) == Some(|p.replicas|)
    requires ParseMany(pi, s, o + 14, |p.replicas|) == Some((p.replicas, replicasEnd))
    requires ReadU32(s, replicasEnd) == Some(|p.isr|)
    requires ParseMany(pi, s, replicasEnd + 4, |p.isr|) == Some((p.isr, isrEnd))
    ensures pp(s, o) == Some((p, isrEnd))
  {
    PartitionLink(pp, pi, s, o);
  }

  /** The fixed fields of an encoded partition, and where its two lists sit. */
  lemma PartitionParts(p: PartitionMetadataInfo, s: seq<byte>, o: nat)
    requires Holds(s, o, EncodePartition(p))
    ensures ReadI16(s, o) == Some(p.partitionErrorCode)
    ensures ReadI32(s, o + 2) == Some(p.partitionID)
    ensures ReadI32(s, o + 6) == Some(p.leader)
    ensures Holds(s, o + 10, EncodeCounted(EncodeI32, p.replicas))
    ensures Holds(s, o + 10 + |EncodeCounted(EncodeI32, p.replicas)|, EncodeCounted(EncodeI32, p.isr))
    ensures |EncodePartition(p)| == 10 + |EncodeCounted(EncodeI32, p.replicas)| + |EncodeCounted(EncodeI32, p.isr)|
  {
    var code, id, leader := EncodeI16(p.partitionErrorCode), EncodeI32(p.partitionID), EncodeI32(p.leader);
    var rs, isrs := EncodeCounted(EncodeI32, p.replicas), EncodeCounted(EncodeI32, p.isr);
    HoldsSplit(s, o, code + id + leader + rs, isrs);
    HoldsSplit(s, o, code + id + leader, rs);
    HoldsSplit(s, o, code + id, leader);
    HoldsSplit(s, o, code, id);
    HoldsI16(s, o, p.partitionErrorCode);
    HoldsI32(s, o + 2, p.partitionID);
    HoldsI32(s, o + 6, p.leader);
  }

  lemma PartitionAt(pp: Parser<PartitionMetadataInfo>, pi: Parser<i32>, p: PartitionMetadataInfo, s: seq<byte>, o: nat)
    requires SameParser(pp, ParsePartition) && SameParser(pi, ParseI32)
    requires PartitionWellFormed(p)
    requires Holds(s, o, EncodePartition(p))
    ensures pp(s, o) == Some((p, o + |EncodePartition(p)|))
  {
    var rs, isrs := EncodeCounted(EncodeI32, p.replicas), EncodeCounted(EncodeI32, p.isr);
    PartitionParts(p, s, o);
    Int32sBack(pi, p.replicas, s, o + 10);
    Int32sBack(pi, p.isr, s, o + 10 + |rs|);
    PartitionOfParts(pp, pi, s, o, p, o + 10 + |rs|, o + 10 + |rs| + |isrs|);
  }

  lemma PartitionReadsBack(pp: Parser<PartitionMetadataInfo>, pi: Parser<i32>, p: PartitionMetadataInfo)
    requires SameParser(pp, ParsePartition) && SameParser(pi, ParseI32)
    requires PartitionWellFormed(p)
    ensures ReadsBack(pp, EncodePartition, p)
  {
    forall s: seq<byte>, o: nat ensures ReadsBackAt(pp, EncodePartition, p, s, o) {
      if Holds(s, o, EncodePartition(p)) {
        PartitionAt(pp, pi, p, s, o);
      }
    }
  }

  lemma PartitionsReadBack(pp: Parser<PartitionMetadataInfo>, pi: Parser<i32>, ps: seq<PartitionMetadataInfo>)
    requires SameParser(pp, ParsePartition) && SameParser(pi, ParseI32)
    requires forall k :: 0 <= k < |ps| ==> PartitionWellFormed(ps[k])
    ensures forall k :: 0 <= k < |ps| ==> ReadsBack(pp, EncodePartition, ps[k])
  {
    forall k | 0 <= k < |ps| ensures ReadsBack(pp, EncodePartition, ps[k]) {
      PartitionReadsBack(pp, pi, ps[k]);
    }
  }

  lemma PartitionsBack(pp: Parser<PartitionMetadataInfo>, pi: Parser<i32>, ps: seq<PartitionMetadataInfo>,
                       s: seq<byte>, o: nat)
    requires SameParser(pp, ParsePartition) && SameParser(pi, ParseI32)
    requires |ps| < 0x1_0000_0000
    requires forall k :: 0 <= k < |ps| ==> PartitionWellFormed(ps[k])
    requires Holds(s, o, EncodeCounted(EncodePartition, ps))
    ensures ReadU32(s, o) == Some(|ps|)
    ensures ParseMany(pp, s, o + 4, |ps|) == Some((ps, o + |EncodeCounted(EncodePartition, ps)|))
  {
    PartitionsReadBack(pp, pi, ps);
    CountedReadsBack(pp, EncodePartition, ps, s, o);
  }

  // ---------------------------------------------------------------------
  // Topics.

  /** `ParseTopic` with its partition parser given. */
  ghost function TopicWith(pp: Parser<PartitionMetadataInfo>, s: seq<byte>, o: nat): Option<(TopicMetadata, nat)> {
    var h :- ParseTopicHeader(s, o);
    var ps :- ParseMany(pp, s, h.next, h.partitionCount);
    Some((TopicMetadata(h.code, h.name, ps.0), ps.1))
  }

  lemma TopicRead(pp: Parser<PartitionMetadataInfo>, s: seq<byte>, o: nat)
    requires SameParser(pp, ParsePartition)
    ensures ParseTopic(s, o) == TopicWith(pp, s, o)
  {
    var h := ParseTopicHeader(s, o);
    if h.Some? {
      SameMany(pp, ParsePartition, s, h.value.next, h.value.partitionCount);
    }
  }

  lemma TopicLink(pt: Parser<TopicMetadata>, pp: Parser<PartitionMetadataInfo>, s: seq<byte>, o: nat)
    requires SameParser(pt, ParseTopic) && SameParser(pp, ParsePartition)
    ensures pt(s, o) == TopicWith(pp, s, o)
  {
    TopicRead(pp, s, o);
    SameAt(pt, ParseTopic, s, o);
  }

  lemma TopicOfParts(pt: Parser<TopicMetadata>, pp: Parser<PartitionMetadataInfo>, s: seq<byte>, o: nat,
                     t: TopicMetadata, partitionsEnd: nat)
    requires SameParser(pt, ParseTopic) && SameParser(pp, ParsePartition)
    requires ReadI16(s, o) == Some(t.topicErrorCode)
    requires ReadU16(s, o + 2) == Some(|t.topicName|)
    requires ReadBytes(s, o + 4, |t.topicName|) == Some(t.topicName)
    requires ReadU32(s, o + 4 + |t.topicName|) == Some(|t.partitionMetadatas|)
    requires ParseMany(pp, s, o + 8 + |t.topicName|, |t.partitionMetadatas|) == Some((t.partitionMetadatas, partitionsEnd))
    ensures pt(s, o) == Some((t, partitionsEnd))
  {
    TopicLink(pt, pp, s, o);
  }

  /** The header of an encoded topic, and where its partitions sit. */
  lemma TopicParts(t: TopicMetadata, s: seq<byte>, o: nat)
    requires |t.topicName| < 0x1_0000
    requires Holds(s, o, EncodeTopic(t))
    ensures ReadI16(s, o) == Some(t.topicErrorCode)
    ensures ReadU16(s, o + 2) == Some(|t.topicName|)
    ensures ReadBytes(s, o + 4, |t.topicName|) == Some(t.topicName)
    ensures Holds(s, o + 4 + |t.topicName|, EncodeCounted(EncodePartition, t.partitionMetadatas))
    ensures |EncodeTopic(t)| == 4 + |t.topicName| + |EncodeCounted(EncodePartition, t.partitionMetadatas)|
  {
    var code, len := EncodeI16(t.topicErrorCode), EncodeLength16(|t.topicName|);
    var ps := EncodeCounted(EncodePartition, t.partitionMetadatas);
    HoldsSplit4(s, o, code, len, t.topicName, ps);
    HoldsI16(s, o, t.topicErrorCode);
    HoldsLength16(s, o + 2, |t.topicName|);
    HoldsBytes(s, o + 4, t.topicName);
  }

  lemma TopicAt(pt: Parser<TopicMetadata>, pp: Parser<PartitionMetadataInfo>, pi: Parser<i32>,
                t: TopicMetadata, s: seq<byte>, o: nat)
    requires SameParser(pt, ParseTopic) && SameParser(pp, ParsePartition) && SameParser(pi, ParseI32)
    requires TopicWellFormed(t)
    requires Holds(s, o, EncodeTopic(t))
    ensures pt(s, o) == Some((t, o + |EncodeTopic(t)|))
  {
    var ps := EncodeCounted(EncodePartition, t.partitionMetadatas);
    TopicParts(t, s, o);
    PartitionsBack(pp, pi, t.partitionMetadatas, s, o + 4 + |t.topicName|);
    TopicOfParts(pt, pp, s, o, t, o + 4 + |t.topicName| + |ps|);
  }

  lemma TopicReadsBack(pt: Parser<TopicMetadata>, pp: Parser<PartitionMetadataInfo>, pi: Parser<i32>, t: TopicMetadata)
    requires SameParser(pt, ParseTopic) && SameParser(pp, ParsePartition) && SameParser(pi, ParseI32)
    requires TopicWellFormed(t)
    ensures ReadsBack(pt, EncodeTopic, t)
  {
    forall s: seq<byte>, o: nat ensures ReadsBackAt(pt, EncodeTopic, t, s, o) {
      if Holds(s, o, EncodeTopic(t)) {
        TopicAt(pt, pp, pi, t, s, o);
      }
    }
  }

  lemma TopicsReadBack(pt: Parser<TopicMetadata>, pp: Parser<PartitionMetadataInfo>, pi: Parser<i32>,
                       ts: seq<TopicMetadata>)
    requires SameParser(pt, ParseTopic) && SameParser(pp, ParsePartition) && SameParser(pi, ParseI32)
    requires forall k :: 0 <= k < |ts| ==> TopicWellFormed(ts[k])
    ensures forall k :: 0 <= k < |ts| ==> ReadsBack(pt, EncodeTopic, ts[k])
  {
    forall k | 0 <= k < |ts| ensures ReadsBack(pt, EncodeTopic, ts[k]) {
      TopicReadsBack(pt, pp, pi, ts[k]);
    }
  }

  lemma TopicsBack(pt: Parser<TopicMetadata>, pp: Parser<PartitionMetadataInfo>, pi: Parser<i32>,
                   ts: seq<TopicMetadata>, s: seq<byte>, o: nat)
    requires SameParser(pt, ParseTopic) && SameParser(pp, ParsePartition) && SameParser(pi, ParseI32)
    requires |ts| < 0x1_0000_0000
    requires forall k :: 0 <= k < |ts| ==> TopicWellFormed(ts[k])
    requires Holds(s, o, EncodeCounted(EncodeTopic, ts))
    ensures ReadU32(s, o) == Some(|ts|)
    ensures ParseMany(pt, s, o + 4, |ts|) == Some((ts, o + |EncodeCounted(EncodeTopic, ts)|))
  {
    TopicsReadBack(pt, pp, pi, ts);
    CountedReadsBack(pt, EncodeTopic, ts, s, o);
  }

  // ---------------------------------------------------------------------
  // The response.

  /** `ParseBody` with its broker and topic parsers given. */
  ghost function BodyWith(pb: Parser<BrokerInfo>, pt: Parser<TopicMetadata>, s: seq<byte>, o: nat): Option<(MetadataResponse, nat)> {
    var correlationID :- ReadU32(s, o);
    var brokersCount :- ReadU32(s, o + 4);
    var brokers :- ParseMany(pb, s, o + 8, brokersCount);
    var topicsCount :- ReadU32(s, brokers.1);
    var topics :- ParseMany(pt, s, brokers.1 + 4, topicsCount);
    Some((MetadataResponse(correlationID, brokers.0, topics.0), topics.1))
  }

  lemma BodyRead(pb: Parser<BrokerInfo>, pt: Parser<TopicMetadata>, s: seq<byte>, o: nat)
    requires SameParser(pb, ParseBroker) && SameParser(pt, ParseTopic)
    ensures ParseBody(s, o) == BodyWith(pb, pt, s, o)
  {
    var brokersCount := ReadU32(s, o + 4);
    if brokersCount.Some? {
      SameMany(pb, ParseBroker, s, o + 8, brokersCount.value);
      var brokers := ParseMany(ParseBroker, s, o + 8, brokersCount.value);
      if brokers.Some? {
        var topicsCount := ReadU32(s, brokers.value.1);
        if topicsCount.Some? {
          SameMany(pt, ParseTopic, s, brokers.value.1 + 4, topicsCount.value);
        }
      }
    }
  }

  lemma BodyLink(pr: Parser<MetadataResponse>, pb: Parser<BrokerInfo>, pt: Parser<TopicMetadata>, s: seq<byte>, o: nat)
    requires SameParser(pr, ParseBody) && SameParser(pb, ParseBroker) && SameParser(pt, ParseTopic)
    ensures pr(s, o) == BodyWith(pb, pt, s, o)
  {
    BodyRead(pb, pt, s, o);
    SameAt(pr, ParseBody, s, o);
  }

  lemma BodyOfParts(pr: Parser<MetadataResponse>, pb: Parser<BrokerInfo>, pt: Parser<TopicMetadata>,
                    s: seq<byte>, o: nat, r: MetadataResponse, brokersEnd: nat, topicsEnd: nat)
    requires SameParser(pr, ParseBody) && SameParser(pb, ParseBroker) && SameParser(pt, ParseTopic)
    requires ReadU32(s, o) == Some(r.correlationID)
    requires ReadU32(s, o + 4) == Some(|r.brokers|)
    requires ParseMany(pb, s, o + 8, |r.brokers|) == Some((r.brokers, brokersEnd))
    requires ReadU32(s, brokersEnd) == Some(|r.topicMetadatas|)
    requires ParseMany(pt, s, brokersEnd + 4, |r.topicMetadatas|) == Some((r.topicMetadatas, topicsEnd))
    ensures pr(s, o) == Some((r, topicsEnd))
  {
    BodyLink(pr, pb, pt, s, o);
  }

  /** The correlation id of an encoded body, and where its two lists sit. */
  lemma BodyParts(r: MetadataResponse, s: seq<byte>, o: nat)
    requires Holds(s, o, EncodeBody(r))
    ensures ReadU32(s, o) == Some(r.correlationID)
    ensures Holds(s, o + 4, EncodeCounted(EncodeBroker, r.brokers))
    ensures Holds(s, o + 4 + |EncodeCounted(EncodeBroker, r.brokers)|, EncodeCounted(EncodeTopic, r.topicMetadatas))
    ensures |EncodeBody(r)| == 4 + |EncodeCounted(EncodeBroker, r.brokers)| + |EncodeCounted(EncodeTopic, r.topicMetadatas)|
  {
    var id := EncodeU32(r.correlationID);
    var bs, ts := EncodeCounted(EncodeBroker, r.brokers), EncodeCounted(EncodeTopic, r.topicMetadatas);
    HoldsSplit(s, o, id + bs, ts);
    HoldsSplit(s, o, id, bs);
    HoldsU32(s, o, r.correlationID);
  }

  /** The two lists of an encoded body, read through aliases. */
  lemma BodyListsAt(pb: Parser<BrokerInfo>, pt: Parser<TopicMetadata>, pp: Parser<PartitionMetadataInfo>,
                    pi: Parser<i32>, r: MetadataResponse, s: seq<byte>, o: nat, brokersEnd: nat)
    requires SameParser(pb, ParseBroker) && SameParser(pt, ParseTopic)
    requires SameParser(pp, ParsePartition) && SameParser(pi, ParseI32)
    requires WellFormed(r)
    requires brokersEnd == o + 4 + |EncodeCounted(EncodeBroker, r.brokers)|
    requires Holds(s, o + 4, EncodeCounted(EncodeBroker, r.brokers))
    requires Holds(s, brokersEnd, EncodeCounted(EncodeTopic, r.topicMetadatas))
    ensures ReadU32(s, o + 4) == Some(|r.brokers|)
    ensures ParseMany(pb, s, o + 8, |r.brokers|) == Some((r.brokers, brokersEnd))
    ensures ReadU32(s, brokersEnd) == Some(|r.topicMetadatas|)
    ensures ParseMany(pt, s, brokersEnd + 4, |r.topicMetadatas|)
         == Some((r.topicMetadatas, brokersEnd + |EncodeCounted(EncodeTopic, r.topicMetadatas)|))
  {
    BrokersBack(pb, r.brokers, s, o + 4);
    TopicsBack(pt, pp, pi, r.topicMetadatas, s, brokersEnd);
  }

  lemma BodyAt(pr: Parser<MetadataResponse>, r: MetadataResponse, s: seq<byte>, o: nat)
    requires SameParser(pr, ParseBody)
    requires WellFormed(r)
    requires Holds(s, o, EncodeBody(r))
    ensures pr(s, o) == Some((r, o + |EncodeBody(r)|))
  {
    var pb := Alias(ParseBroker);
    var pt := Alias(ParseTopic);
    var pp := Alias(ParsePartition);
    var pi := Alias(ParseI32);
    var brokersEnd := o + 4 + |EncodeCounted(EncodeBroker, r.brokers)|;
    BodyParts(r, s, o);
    BodyListsAt(pb, pt, pp, pi, r, s, o, brokersEnd);
    BodyOfParts(pr, pb, pt, s, o, r, brokersEnd, brokersEnd + |EncodeCounted(EncodeTopic, r.topicMetadatas)|);
  }

  /** The frame's length field and body, read through an alias of `ParseBody`. */
  lemma FrameAt(pr: Parser<MetadataResponse>, r: MetadataResponse, junk: seq<byte>)
    requires SameParser(pr, ParseBody)
    requires WellFormed(r)
    requires |EncodeBody(r) + junk| < 0x1_0000_0000
    ensures |Frame(EncodeBody(r) + junk)| == 4 + |EncodeBody(r) + junk|
    ensures ReadU32(Frame(EncodeBody(r) + junk), 0) == Some(|EncodeBody(r) + junk|)
    ensures pr(Frame(EncodeBody(r) + junk), 4) == Some((r, 4 + |EncodeBody(r)|))
  {
    var body := EncodeBody(r) + junk;
    var s := Frame(body);
    HoldsSlice(s, 0, s);
    HoldsSplit(s, 0, EncodeLength32(|body|), body);
    HoldsLength32(s, 0, |body|);
    HoldsSplit(s, 4, EncodeBody(r), junk);
    BodyAt(pr, r, s, 4);
  }

  lemma MetadataOfParts(pr: Parser<MetadataResponse>, s: seq<byte>, r: MetadataResponse, bodyEnd: nat)
    requires SameParser(pr, ParseBody)
    requires |s| >= 4 && ReadU32(s, 0) == Some(|s| - 4)
    requires pr(s, 4) == Some((r, bodyEnd))
    ensures ParseMetadata(s) == Success(r)
  {
    assert At(s, 4);
  }

  /**
    The round trip: a frame holding the body of a well-formed response,
    followed by any bytes, decodes to that response (in wire order).
  */
  lemma RoundTrip(r: MetadataResponse, junk: seq<byte>)
    requires WellFormed(r)
    requires |EncodeBody(r) + junk| < 0x1_0000_0000
    ensures ParseMetadata(Frame(EncodeBody(r) + junk)) == Success(r)
  {
    var pr := Alias(ParseBody);
    FrameAt(pr, r, junk);
    MetadataOfParts(pr, Frame(EncodeBody(r) + junk), r, 4 + |EncodeBody(r)|);
  }

  /**
    A frame whose length field is not the length of what follows it is
    refused, whatever it holds.
  */
  lemma WrongLengthRefused(length: u32, body: seq<byte>)
    requires length != |body|
    ensures ParseMetadata(EncodeU32(length) + body) == Failure(LengthMismatch(length + 4, |body| + 4))
  {
    var s := EncodeU32(length) + body;
    assert s[0..4] == EncodeU32(length);
    ReadEncodedU32(s, 0, length);
  }
}
