/**
  The encoder of the fetch response and the round trip: the encoding of a
  well-formed response, with any bytes after it, decodes to that response.
  A partition whose set size is larger than the number of messages that
  follow it, at the very end of the buffer, decodes to its messages
  followed by zero messages.  This is the partner of the decoder in
  fetch_response.go; the repository has no encoder of its own.
*/
module FetchEncoding {
  import opened Wrappers
  import opened Primitives
  import opened Cursor
  import opened Fetch

  /** A length of -1 for an absent buffer, else the length and the bytes. */
  function EncodeNullable(b: Option<seq<byte>>): seq<byte> {
    if b.None? then EncodeI32(-1) else EncodeLength32(|b.value|) + b.value
  }

  function EncodeMessage(m: Message): (e: seq<byte>)
    ensures |e| > 0
  {
    EncodeI64(m.offset) + EncodeI32(m.messageSize) + EncodeU32(m.crc) + [FromI8(m.magicByte)]
      + [FromI8(m.attributes)] + EncodeNullable(m.key) + EncodeNullable(m.value)
  }

  /** The set size field is written as given; the messages follow it. */
  function EncodeTopicData(d: TopicData): (e: seq<byte>)
    ensures |e| > 0
  {
    EncodeI32(d.partition) + EncodeI16(d.errorCode) + EncodeI64(d.highwaterMarkOffset)
      + EncodeI32(d.messageSetSize) + EncodeAll(EncodeMessage, d.messageSet)
  }

  function EncodeFetchTopic(t: FetchTopic): (e: seq<byte>)
    ensures |e| > 0
  {
    EncodeLength16(|t.topicName|) + t.topicName + EncodeCounted(EncodeTopicData, t.topicDatas)
  }

  function EncodeFetch(r: FetchResponse): seq<byte> {
    EncodeCounted(EncodeFetchTopic, r)
  }

  predicate NullableWellFormed(b: Option<seq<byte>>) {
    b.Some? ==> |b.value| < 0x8000_0000
  }

  predicate MessageWellFormed(m: Message) {
    NullableWellFormed(m.key) && NullableWellFormed(m.value)
  }

  /** Messages that fit their fields, at most as many as the set size says. */
  predicate TopicDataFits(d: TopicData) {
    && |d.messageSet| <= d.messageSetSize
    && forall k :: 0 <= k < |d.messageSet| ==> MessageWellFormed(d.messageSet[k])
  }

  /** A partition whose set size is the number of its messages. */
  predicate TopicDataWellFormed(d: TopicData) {
    TopicDataFits(d) && |d.messageSet| == d.messageSetSize
  }

  predicate FetchTopicWellFormed(t: FetchTopic) {
    && |t.topicName| < 0x1_0000
    && |t.topicDatas| < 0x1_0000_0000
    && forall k :: 0 <= k < |t.topicDatas| ==> TopicDataWellFormed(t.topicDatas[k])
  }

  predicate WellFormed(r: FetchResponse) {
    && |r| < 0x1_0000_0000
    && forall k :: 0 <= k < |r| ==> FetchTopicWellFormed(r[k])
  }

  /** A partition's messages followed by the zero entries its set size leaves. */
  function Padded(d: TopicData): TopicData
    requires |d.messageSet| <= d.messageSetSize
  {
    d.(messageSet := d.messageSet + Repeat(ZeroMessage, d.messageSetSize - |d.messageSet|))
  }

  // ---------------------------------------------------------------------
  // Message sets.

  /**
    Encodings that read back, one after the other, read back as a message
    set: exactly, when there are as many as the set size; followed by zero
    entries, when there are fewer and they end the buffer.
  */
  lemma {:induction false} SetReadsBack<T>(parse: Parser<T>, zero: T, enc: T -> seq<byte>, xs: seq<T>, n: nat,
                                            s: seq<byte>, o: nat)
    requires forall k :: 0 <= k < |xs| ==> ReadsBack(parse, enc, xs[k]) && |enc(xs[k])| > 0
    requires |xs| <= n
    requires |xs| < n ==> xs != [] && o + |EncodeAll(enc, xs)| == |s|
    requires Holds(s, o, EncodeAll(enc, xs))
    ensures ParseSet(parse, zero, s, o, n) == Some((xs + Repeat(zero, n - |xs|), o + |EncodeAll(enc, xs)|))
    decreases |xs|
  {
    if xs == [] {
      assert xs + Repeat(zero, 0) == [];
    } else {
      var rest := EncodeAll(enc, xs[1..]);
      var next := o + |enc(xs[0])|;
      HoldsSplit(s, o, enc(xs[0]), rest);
      assert ReadsBack(parse, enc, xs[0]);
      assert ReadsBackAt(parse, enc, xs[0], s, o);
      if xs[1..] != [] {
        assert xs[1..][0] == xs[1];
      }
      if next == |s| {
        assert xs == [xs[0]];
      } else {
        SetReadsBack(parse, zero, enc, xs[1..], n - 1, s, next);
        PadAfterFirst(xs, zero, n);
      }
    }
  }

  lemma PadAfterFirst<T>(xs: seq<T>, zero: T, n: nat)
    requires 0 < |xs| <= n
    ensures xs + Repeat(zero, n - |xs|) == [xs[0]] + (xs[1..] + Repeat(zero, n - 1 - |xs[1..]|))
  {
    assert xs == [xs[0]] + xs[1..];
  }

  // ---------------------------------------------------------------------
  // Messages.

  lemma NullableAt(pn: Parser<Option<seq<byte>>>, b: Option<seq<byte>>, s: seq<byte>, o: nat)
    requires SameParser(pn, ParseNullable)
    requires NullableWellFormed(b)
    requires Holds(s, o, EncodeNullable(b))
    ensures pn(s, o) == Some((b, o + |EncodeNullable(b)|))
  {
    if b.None? {
      HoldsI32(s, o, -1);
    } else {
      HoldsSplit(s, o, EncodeLength32(|b.value|), b.value);
      HoldsSignedLength(s, o, |b.value|);
      HoldsBytes(s, o + 4, b.value);
    }
    NullableOfParts(pn, b, s, o);
  }

  lemma NullableOfParts(pn: Parser<Option<seq<byte>>>, b: Option<seq<byte>>, s: seq<byte>, o: nat)
    requires SameParser(pn, ParseNullable)
    requires NullableWellFormed(b)
    requires ReadI32(s, o) == Some(if b.None? then -1 else |b.value|)
    requires b.Some? ==> ReadBytes(s, o + 4, |b.value|) == Some(b.value)
    ensures pn(s, o) == Some((b, o + |EncodeNullable(b)|))
  {
    SameAt(pn, ParseNullable, s, o);
  }

  /** The fixed fields of an encoded message, and where its key and value sit. */
  lemma MessageParts(m: Message, s: seq<byte>, o: nat)
    requires Holds(s, o, EncodeMessage(m))
    ensures ReadI64(s, o) == Some(m.offset)
    ensures ReadI32(s, o + 8) == Some(m.messageSize)
    ensures ReadU32(s, o + 12) == Some(m.crc)
    ensures ReadI8(s, o + 16) == Some(m.magicByte)
    ensures ReadI8(s, o + 17) == Some(m.attributes)
    ensures Holds(s, o + 18, EncodeNullable(m.key))
    ensures Holds(s, o + 18 + |EncodeNullable(m.key)|, EncodeNullable(m.value))
    ensures |EncodeMessage(m)| == 18 + |EncodeNullable(m.key)| + |EncodeNullable(m.value)|
  {
    var offset, size, crc := EncodeI64(m.offset), EncodeI32(m.messageSize), EncodeU32(m.crc);
    var magic, attributes := [FromI8(m.magicByte)], [FromI8(m.attributes)];
    var key, value := EncodeNullable(m.key), EncodeNullable(m.value);
    HoldsSplit(s, o, offset + size + crc + magic + attributes + key, value);
    HoldsSplit(s, o, offset + size + crc + magic + attributes, key);
    HoldsSplit(s, o, offset + size + crc + magic, attributes);
    HoldsSplit(s, o, offset + size + crc, magic);
    HoldsSplit(s, o, offset + size, crc);
    HoldsSplit(s, o, offset, size);
    HoldsI64(s, o, m.offset);
    HoldsI32(s, o + 8, m.messageSize);
    HoldsU32(s, o + 12, m.crc);
    HoldsI8(s, o + 16, m.magicByte);
    HoldsI8(s, o + 17, m.attributes);
  }

  /** `ParseMessage` with its buffer parser given. */
  ghost function MessageWith(pn: Parser<Option<seq<byte>>>, s: seq<byte>, o: nat): Option<(Message, nat)> {
    var offset :- ReadI64(s, o);
    var messageSize :- ReadI32(s, o + 8);
    var crc :- ReadU32(s, o + 12);
    var magicByte :- ReadI8(s, o + 16);
    var attributes :- ReadI8(s, o + 17);
    var key :- pn(s, o + 18);
    var value :- pn(s, key.1);
    Some((Message(offset, messageSize, crc, magicByte, attributes, key.0, value.0), value.1))
  }

  lemma MessageRead(pn: Parser<Option<seq<byte>>>, s: seq<byte>, o: nat)
    requires SameParser(pn, ParseNullable)
    ensures ParseMessage(s, o) == MessageWith(pn, s, o)
  {
    SameAt(pn, ParseNullable, s, o + 18);
    var key := ParseNullable(s, o + 18);
    if key.Some? {
      SameAt(pn, ParseNullable, s, key.value.1);
    }
  }

  lemma MessageLink(pm: Parser<Message>, pn: Parser<Option<seq<byte>>>, s: seq<byte>, o: nat)
    requires SameParser(pm, ParseMessage) && SameParser(pn, ParseNullable)
    ensures pm(s, o) == MessageWith(pn, s, o)
  {
    MessageRead(pn, s, o);
    SameAt(pm, ParseMessage, s, o);
  }

  lemma MessageOfParts(pm: Parser<Message>, pn: Parser<Option<seq<byte>>>, s: seq<byte>, o: nat,
                       m: Message, keyEnd: nat, valueEnd: nat)
    requires SameParser(pm, ParseMessage) && SameParser(pn, ParseNullable)
    requires ReadI64(s, o) == Some(m.offset)
    requires ReadI32(s, o + 8) == Some(m.messageSize)
    requires ReadU32(s, o + 12) == Some(m.crc)
    requires ReadI8(s, o + 16) == Some(m.magicByte)
    requires ReadI8(s, o + 17) == Some(m.attributes)
    requires pn(s, o + 18) == Some((m.key, keyEnd))
    requires pn(s, keyEnd) == Some((m.value, valueEnd))
    ensures pm(s, o) == Some((m, valueEnd))
  {
    MessageLink(pm, pn, s, o);
  }

  lemma MessageAt(pm: Parser<Message>, m: Message, s: seq<byte>, o: nat)
    requires SameParser(pm, ParseMessage)
    requires MessageWellFormed(m)
    requires Holds(s, o, EncodeMessage(m))
    ensures pm(s, o) == Some((m, o + |EncodeMessage(m)|))
  {
    var pn := Alias(ParseNullable);
    var keyEnd := o + 18 + |EncodeNullable(m.key)|;
    MessageParts(m, s, o);
    NullableAt(pn, m.key, s, o + 18);
    NullableAt(pn, m.value, s, keyEnd);
    MessageOfParts(pm, pn, s, o, m, keyEnd, keyEnd + |EncodeNullable(m.value)|);
  }

  lemma MessageReadsBack(pm: Parser<Message>, m: Message)
    requires SameParser(pm, ParseMessage)
    requires MessageWellFormed(m)
    ensures ReadsBack(pm, EncodeMessage, m)
  {
    forall s: seq<byte>, o: nat ensures ReadsBackAt(pm, EncodeMessage, m, s, o) {
      if Holds(s, o, EncodeMessage(m)) {
        MessageAt(pm, m, s, o);
      }
    }
  }

  lemma MessagesReadBack(pm: Parser<Message>, ms: seq<Message>)
    requires SameParser(pm, ParseMessage)
    requires forall k :: 0 <= k < |ms| ==> MessageWellFormed(ms[k])
    ensures forall k :: 0 <= k < |ms| ==> ReadsBack(pm, EncodeMessage, ms[k]) && |EncodeMessage(ms[k])| > 0
  {
    forall k | 0 <= k < |ms| ensures ReadsBack(pm, EncodeMessage, ms[k]) {
      MessageReadsBack(pm, ms[k]);
    }
  }

  // ---------------------------------------------------------------------
  // Partitions.

  /** The header of an encoded partition, and where its messages sit. */
  lemma TopicDataParts(d: TopicData, s: seq<byte>, o: nat)
    requires Holds(s, o, EncodeTopicData(d))
    ensures ReadI32(s, o) == Some(d.partition)
    ensures ReadI16(s, o + 4) == Some(d.errorCode)
    ensures ReadI64(s, o + 6) == Some(d.highwaterMarkOffset)
    ensures ReadI32(s, o + 14) == Some(d.messageSetSize)
    ensures Holds(s, o + 18, EncodeAll(EncodeMessage, d.messageSet))
    ensures |EncodeTopicData(d)| == 18 + |EncodeAll(EncodeMessage, d.messageSet)|
  {
    var partition, code := EncodeI32(d.partition), EncodeI16(d.errorCode);
    var mark, size := EncodeI64(d.highwaterMarkOffset), EncodeI32(d.messageSetSize);
    var messages := EncodeAll(EncodeMessage, d.messageSet);
    HoldsSplit(s, o, partition + code + mark + size, messages);
    HoldsSplit4(s, o, partition, code, mark, size);
    HoldsI32(s, o, d.partition);
    HoldsI16(s, o + 4, d.errorCode);
    HoldsI64(s, o + 6, d.highwaterMarkOffset);
    HoldsI32(s, o + 14, d.messageSetSize);
  }

  /** `ParseTopicData` with its message parser given. */
  ghost function TopicDataWith(pm: Parser<Message>, s: seq<byte>, o: nat): Option<(TopicData, nat)> {
    var partition :- ReadI32(s, o);
    var errorCode :- ReadI16(s, o + 4);
    var highwaterMarkOffset :- ReadI64(s, o + 6);
    var messageSetSize :- ReadI32(s, o + 14);
    if messageSetSize < 0 then None
    else
      var messages :- ParseSet(pm, ZeroMessage, s, o + 18, messageSetSize);
      Some((TopicData(partition, errorCode, highwaterMarkOffset, messageSetSize, messages.0), messages.1))
  }

  lemma TopicDataRead(pm: Parser<Message>, s: seq<byte>, o: nat)
    requires SameParser(pm, ParseMessage)
    ensures ParseTopicData(s, o) == TopicDataWith(pm, s, o)
  {
    var size := ReadI32(s, o + 14);
    if size.Some? && size.value >= 0 {
      SameSet(pm, ParseMessage, ZeroMessage, s, o + 18, size.value);
    }
  }

  lemma TopicDataLink(pd: Parser<TopicData>, pm: Parser<Message>, s: seq<byte>, o: nat)
    requires SameParser(pd, ParseTopicData) && SameParser(pm, ParseMessage)
    ensures pd(s, o) == TopicDataWith(pm, s, o)
  {
    TopicDataRead(pm, s, o);
    SameAt(pd, ParseTopicData, s, o);
  }

  lemma TopicDataOfParts(pd: Parser<TopicData>, pm: Parser<Message>, s: seq<byte>, o: nat, d: TopicData, end: nat)
    requires SameParser(pd, ParseTopicData) && SameParser(pm, ParseMessage)
    requires ReadI32(s, o) == Some(d.partition)
    requires ReadI16(s, o + 4) == Some(d.errorCode)
    requires ReadI64(s, o + 6) == Some(d.highwaterMarkOffset)
    requires ReadI32(s, o + 14) == Some(d.messageSetSize)
    requires 0 <= d.messageSetSize
    requires ParseSet(pm, ZeroMessage, s, o + 18, d.messageSetSize) == Some((d.messageSet, end))
    ensures pd(s, o) == Some((d, end))
  {
    TopicDataLink(pd, pm, s, o);
  }

  /**
    An encoded partition reads back as its messages followed by the zero
    entries its set size leaves; there are none unless it ends the buffer.
  */
  lemma TopicDataAt(pd: Parser<TopicData>, pm: Parser<Message>, d: TopicData, s: seq<byte>, o: nat)
    requires SameParser(pd, ParseTopicData) && SameParser(pm, ParseMessage)
    requires TopicDataFits(d)
    requires |d.messageSet| < d.messageSetSize ==> d.messageSet != [] && o + |EncodeTopicData(d)| == |s|
    requires Holds(s, o, EncodeTopicData(d))
    ensures pd(s, o) == Some((Padded(d), o + |EncodeTopicData(d)|))
  {
    TopicDataParts(d, s, o);
    MessageSetAt(pm, d, s, o + 18);
    TopicDataOfParts(pd, pm, s, o, Padded(d), o + |EncodeTopicData(d)|);
  }

  /** The message set of a partition, read through an alias of `ParseMessage`. */
  lemma MessageSetAt(pm: Parser<Message>, d: TopicData, s: seq<byte>, o: nat)
    requires SameParser(pm, ParseMessage)
    requires TopicDataFits(d)
    requires |d.messageSet| < d.messageSetSize ==>
               d.messageSet != [] && o + |EncodeAll(EncodeMessage, d.messageSet)| == |s|
    requires Holds(s, o, EncodeAll(EncodeMessage, d.messageSet))
    ensures ParseSet(pm, ZeroMessage, s, o, d.messageSetSize)
         == Some((Padded(d).messageSet, o + |EncodeAll(EncodeMessage, d.messageSet)|))
  {
    MessagesReadBack(pm, d.messageSet);
    SetReadsBack(pm, ZeroMessage, EncodeMessage, d.messageSet, d.messageSetSize, s, o);
  }

  lemma TopicDataReadsBack(pd: Parser<TopicData>, pm: Parser<Message>, d: TopicData)
    requires SameParser(pd, ParseTopicData) && SameParser(pm, ParseMessage)
    requires TopicDataWellFormed(d)
    ensures ReadsBack(pd, EncodeTopicData, d)
  {
    assert Padded(d) == d by {
      assert d.messageSet + Repeat(ZeroMessage, 0) == d.messageSet;
    }
    forall s: seq<byte>, o: nat ensures ReadsBackAt(pd, EncodeTopicData, d, s, o) {
      if Holds(s, o, EncodeTopicData(d)) {
        TopicDataAt(pd, pm, d, s, o);
      }
    }
  }

  lemma TopicDatasReadBack(pd: Parser<TopicData>, pm: Parser<Message>, ds: seq<TopicData>)
    requires SameParser(pd, ParseTopicData) && SameParser(pm, ParseMessage)
    requires forall k :: 0 <= k < |ds| ==> TopicDataWellFormed(ds[k])
    ensures forall k :: 0 <= k < |ds| ==> ReadsBack(pd, EncodeTopicData, ds[k])
  {
    forall k | 0 <= k < |ds| ensures ReadsBack(pd, EncodeTopicData, ds[k]) {
      TopicDataReadsBack(pd, pm, ds[k]);
    }
  }

  lemma TopicDatasBack(pd: Parser<TopicData>, pm: Parser<Message>, ds: seq<TopicData>, s: seq<byte>, o: nat)
    requires SameParser(pd, ParseTopicData) && SameParser(pm, ParseMessage)
    requires |ds| < 0x1_0000_0000
    requires forall k :: 0 <= k < |ds| ==> TopicDataWellFormed(ds[k])
    requires Holds(s, o, EncodeCounted(EncodeTopicData, ds))
    ensures ReadU32(s, o) == Some(|ds|)
    ensures ParseMany(pd, s, o + 4, |ds|) == Some((ds, o + |EncodeCounted(EncodeTopicData, ds)|))
  {
    TopicDatasReadBack(pd, pm, ds);
    CountedReadsBack(pd, EncodeTopicData, ds, s, o);
  }

  /**
    fetch_response.go:69-103: a partition at the end of the buffer that
    announces more messages than it holds decodes to its messages followed
    by zero messages, and the read ends at the end of the buffer.
  */
  lemma ShortPartitionPadded(prefix: seq<byte>, d: TopicData)
    requires TopicDataFits(d) && 0 < |d.messageSet| < d.messageSetSize
    ensures ParseTopicData(prefix + EncodeTopicData(d), |prefix|)
         == Some((Padded(d), |prefix + EncodeTopicData(d)|))
  {
    var pd := Alias(ParseTopicData);
    ShortPartitionAt(pd, prefix, d);
    assert At(prefix + EncodeTopicData(d), |prefix|);
  }

  lemma ShortPartitionAt(pd: Parser<TopicData>, prefix: seq<byte>, d: TopicData)
    requires SameParser(pd, ParseTopicData)
    requires TopicDataFits(d) && 0 < |d.messageSet| < d.messageSetSize
    ensures pd(prefix + EncodeTopicData(d), |prefix|) == Some((Padded(d), |prefix + EncodeTopicData(d)|))
  {
    var s := prefix + EncodeTopicData(d);
    var pm := Alias(ParseMessage);
    HoldsSlice(s, |prefix|, EncodeTopicData(d));
    assert s[|prefix|..|prefix| + |EncodeTopicData(d)|] == EncodeTopicData(d);
    TopicDataAt(pd, pm, d, s, |prefix|);
  }

  // ---------------------------------------------------------------------
  // Topics.

  /** The name of an encoded topic, and where its partitions sit. */
  lemma FetchTopicParts(t: FetchTopic, s: seq<byte>, o: nat)
    requires |t.topicName| < 0x1_0000
    requires Holds(s, o, EncodeFetchTopic(t))
    ensures ReadU16(s, o) == Some(|t.topicName|)
    ensures ReadBytes(s, o + 2, |t.topicName|) == Some(t.topicName)
    ensures Holds(s, o + 2 + |t.topicName|, EncodeCounted(EncodeTopicData, t.topicDatas))
    ensures |EncodeFetchTopic(t)| == 2 + |t.topicName| + |EncodeCounted(EncodeTopicData, t.topicDatas)|
  {
    var len, datas := EncodeLength16(|t.topicName|), EncodeCounted(EncodeTopicData, t.topicDatas);
    HoldsSplit3(s, o, len, t.topicName, datas);
    HoldsLength16(s, o, |t.topicName|);
    HoldsBytes(s, o + 2, t.topicName);
  }

  /** `ParseFetchTopic` with its partition parser given. */
  ghost function FetchTopicWith(pd: Parser<TopicData>, s: seq<byte>, o: nat): Option<(FetchTopic, nat)> {
    var nameLength :- ReadU16(s, o);
    var name :- ReadBytes(s, o + 2, nameLength);
    var count :- ReadU32(s, o + 2 + nameLength);
    var datas :- ParseMany(pd, s, o + 6 + nameLength, count);
    Some((FetchTopic(name, datas.0), datas.1))
  }

  lemma FetchTopicRead(pd: Parser<TopicData>, s: seq<byte>, o: nat)
    requires SameParser(pd, ParseTopicData)
    ensures ParseFetchTopic(s, o) == FetchTopicWith(pd, s, o)
  {
    var nameLength := ReadU16(s, o);
    if nameLength.Some? {
      var count := ReadU32(s, o + 2 + nameLength.value);
      if count.Some? {
        SameMany(pd, ParseTopicData, s, o + 6 + nameLength.value, count.value);
        var datas := ParseMany(pd, s, o + 6 + nameLength.value, count.value);
        var name := ReadBytes(s, o + 2, nameLength.value);
        if name.Some? && datas.Some? {
          assert ParseFetchTopic(s, o) == Some((FetchTopic(name.value, datas.value.0), datas.value.1));
        }
      }
    }
  }

  lemma FetchTopicLink(pf: Parser<FetchTopic>, pd: Parser<TopicData>, s: seq<byte>, o: nat)
    requires SameParser(pf, ParseFetchTopic) && SameParser(pd, ParseTopicData)
    ensures pf(s, o) == FetchTopicWith(pd, s, o)
  {
    FetchTopicRead(pd, s, o);
    SameAt(pf, ParseFetchTopic, s, o);
  }

  lemma FetchTopicOfParts(pf: Parser<FetchTopic>, pd: Parser<TopicData>, s: seq<byte>, o: nat,
                          t: FetchTopic, end: nat)
    requires SameParser(pf, ParseFetchTopic) && SameParser(pd, ParseTopicData)
    requires ReadU16(s, o) == Some(|t.topicName|)
    requires ReadBytes(s, o + 2, |t.topicName|) == Some(t.topicName)
    requires ReadU32(s, o + 2 + |t.topicName|) == Some(|t.topicDatas|)
    requires ParseMany(pd, s, o + 6 + |t.topicName|, |t.topicDatas|) == Some((t.topicDatas, end))
    ensures pf(s, o) == Some((t, end))
  {
    FetchTopicLink(pf, pd, s, o);
  }

  lemma FetchTopicAt(pf: Parser<FetchTopic>, pd: Parser<TopicData>, pm: Parser<Message>, t: FetchTopic,
                     s: seq<byte>, o: nat)
    requires SameParser(pf, ParseFetchTopic) && SameParser(pd, ParseTopicData) && SameParser(pm, ParseMessage)
    requires FetchTopicWellFormed(t)
    requires Holds(s, o, EncodeFetchTopic(t))
    ensures pf(s, o) == Some((t, o + |EncodeFetchTopic(t)|))
  {
    var datas := EncodeCounted(EncodeTopicData, t.topicDatas);
    FetchTopicParts(t, s, o);
    TopicDatasBack(pd, pm, t.topicDatas, s, o + 2 + |t.topicName|);
    FetchTopicOfParts(pf, pd, s, o, t, o + 2 + |t.topicName| + |datas|);
  }

  lemma FetchTopicReadsBack(pf: Parser<FetchTopic>, pd: Parser<TopicData>, pm: Parser<Message>, t: FetchTopic)
    requires SameParser(pf, ParseFetchTopic) && SameParser(pd, ParseTopicData) && SameParser(pm, ParseMessage)
    requires FetchTopicWellFormed(t)
    ensures ReadsBack(pf, EncodeFetchTopic, t)
  {
    forall s: seq<byte>, o: nat ensures ReadsBackAt(pf, EncodeFetchTopic, t, s, o) {
      if Holds(s, o, EncodeFetchTopic(t)) {
        FetchTopicAt(pf, pd, pm, t, s, o);
      }
    }
  }

  lemma FetchTopicsReadBack(pf: Parser<FetchTopic>, pd: Parser<TopicData>, pm: Parser<Message>, r: FetchResponse)
    requires SameParser(pf, ParseFetchTopic) && SameParser(pd, ParseTopicData) && SameParser(pm, ParseMessage)
    requires forall k :: 0 <= k < |r| ==> FetchTopicWellFormed(r[k])
    ensures forall k :: 0 <= k < |r| ==> ReadsBack(pf, EncodeFetchTopic, r[k])
  {
    forall k | 0 <= k < |r| ensures ReadsBack(pf, EncodeFetchTopic, r[k]) {
      FetchTopicReadsBack(pf, pd, pm, r[k]);
    }
  }

  // ---------------------------------------------------------------------
  // The response.

  lemma FetchTopicsBack(pf: Parser<FetchTopic>, r: FetchResponse, s: seq<byte>)
    requires SameParser(pf, ParseFetchTopic)
    requires WellFormed(r)
    requires Holds(s, 0, EncodeFetch(r))
    ensures ReadU32(s, 0) == Some(|r|)
    ensures ParseMany(pf, s, 4, |r|) == Some((r, |EncodeFetch(r)|))
  {
    var pd := Alias(ParseTopicData);
    var pm := Alias(ParseMessage);
    FetchTopicsReadBack(pf, pd, pm, r);
    CountedReadsBack(pf, EncodeFetchTopic, r, s, 0);
  }

  /** The topic count and the topics of an encoding, read through an alias. */
  lemma FetchAt(pf: Parser<FetchTopic>, r: FetchResponse, junk: seq<byte>)
    requires SameParser(pf, ParseFetchTopic)
    requires WellFormed(r)
    ensures ReadU32(EncodeFetch(r) + junk, 0) == Some(|r|)
    ensures ParseMany(pf, EncodeFetch(r) + junk, 4, |r|).Some?
    ensures ParseMany(pf, EncodeFetch(r) + junk, 4, |r|).value.0 == r
  {
    var s := EncodeFetch(r) + junk;
    HoldsSlice(s, 0, s);
    HoldsSplit(s, 0, EncodeFetch(r), junk);
    FetchTopicsBack(pf, r, s);
  }

  /** `ParseFetch` with its topic parser given. */
  ghost function FetchWith(pf: Parser<FetchTopic>, s: seq<byte>): Option<FetchResponse> {
    var count :- ReadU32(s, 0);
    var topics :- ParseMany(pf, s, 4, count);
    Some(topics.0)
  }

  lemma FetchRead(pf: Parser<FetchTopic>, s: seq<byte>)
    requires SameParser(pf, ParseFetchTopic)
    ensures ParseFetch(s) == FetchWith(pf, s)
  {
    var count := ReadU32(s, 0);
    if count.Some? {
      SameMany(pf, ParseFetchTopic, s, 4, count.value);
    }
  }

  lemma FetchOfParts(pf: Parser<FetchTopic>, s: seq<byte>, r: FetchResponse)
    requires SameParser(pf, ParseFetchTopic)
    requires ReadU32(s, 0) == Some(|r|)
    requires ParseMany(pf, s, 4, |r|).Some? && ParseMany(pf, s, 4, |r|).value.0 == r
    ensures ParseFetch(s) == Some(r)
  {
    FetchRead(pf, s);
  }

  /**
    The round trip: the encoding of a well-formed response, followed by
    any bytes, decodes to that response.
  */
  lemma RoundTrip(r: FetchResponse, junk: seq<byte>)
    requires WellFormed(r)
    ensures ParseFetch(EncodeFetch(r) + junk) == Some(r)
  {
    var pf := Alias(ParseFetchTopic);
    FetchAt(pf, r, junk);
    FetchOfParts(pf, EncodeFetch(r) + junk, r);
  }
}
