/**
  The fetch response decoder of fetch_response.go.

  The wire layout, read from offset 0 with no size or correlation-id header:

    topicCount:u32 { nameLen:u16 name:bytes partitionCount:u32
      { partition:i32 errorCode:i16 highwaterMarkOffset:i64 messageSetSize:i32
        messageSetSize times { offset:i64 messageSize:i32 crc:u32 magicByte:i8
          attributes:i8 keyLen:i32 key:bytes valueLen:i32 value:bytes } } }

  `messageSetSize` is used as a number of messages, not a number of bytes.
  A length of -1 is an absent key or value.  The message loop of a
  partition stops as soon as the cursor reaches the end of the buffer;
  the entries it did not reach keep their zero value.
*/
module Fetch {
  import opened Wrappers
  import opened Primitives
  import opened Cursor

  datatype Message = Message(
    offset: i64,
    messageSize: i32,
    crc: u32,
    magicByte: i8,
    attributes: i8,
    key: Option<seq<byte>>,
    value: Option<seq<byte>>)

  /** The zero value of Go's `Message`: every number 0, key and value nil. */
  const ZeroMessage: Message := Message(0, 0, 0, 0, 0, None, None)

  datatype TopicData = TopicData(
    partition: i32,
    errorCode: i16,
    highwaterMarkOffset: i64,
    messageSetSize: i32,
    messageSet: seq<Message>)

  datatype FetchTopic = FetchTopic(topicName: seq<byte>, topicDatas: seq<TopicData>)

  type FetchResponse = seq<FetchTopic>

  /** n copies of x: the zero entries of a preallocated Go slice. */
  function Repeat<T>(x: T, n: nat): (r: seq<T>)
    ensures |r| == n && forall i :: 0 <= i < n ==> r[i] == x
  {
    seq(n, _ => x)
  }

  // ---------------------------------------------------------------------
  // What the bytes mean.

  /**
    fetch_response.go:81-89 (and 91-99): an i32 length, then that many
    bytes, or nothing for -1.  A length below -1 makes Go's `make` panic.
  */
  function ParseNullable(s: seq<byte>, o: nat): Option<(Option<seq<byte>>, nat)> {
    var length :- ReadI32(s, o);
    if length == -1 then Some((None, o + 4))
    else if length < -1 then None
    else
      var bytes :- ReadBytes(s, o + 4, length);
      Some((Some(bytes), o + 4 + length))
  }

  /** fetch_response.go:71-99: one message. */
  function ParseMessage(s: seq<byte>, o: nat): Option<(Message, nat)> {
    var offset :- ReadI64(s, o);
    var messageSize :- ReadI32(s, o + 8);
    var crc :- ReadU32(s, o + 12);
    var magicByte :- ReadI8(s, o + 16);
    var attributes :- ReadI8(s, o + 17);
    var key :- ParseNullable(s, o + 18);
    var value :- ParseNullable(s, key.1);
    Some((Message(offset, messageSize, crc, magicByte, attributes, key.0, value.0), value.1))
  }

  /**
    fetch_response.go:69-103: a message set of `n` entries.  Items are read
    one after another until `n` are read or one ends exactly at the end of
    the buffer; the entries after that one stay `zero`.
  */
  function ParseSet<T>(parse: Parser<T>, zero: T, s: seq<byte>, o: nat, n: nat): (r: Option<(seq<T>, nat)>)
    ensures r.Some? ==> |r.value.0| == n
    decreases n
  {
    if n == 0 then Some(([], o))
    else
      var m :- parse(s, o);
      if m.1 == |s| then Some(([m.0] + Repeat(zero, n - 1), m.1))
      else
        var rest :- ParseSet(parse, zero, s, m.1, n - 1);
        Some(([m.0] + rest.0, rest.1))
  }

  /**
    fetch_response.go:61-103: a partition's header, then its message set.
    A negative set size makes Go's `make` panic.
  */
  function ParseTopicData(s: seq<byte>, o: nat): Option<(TopicData, nat)> {
    var partition :- ReadI32(s, o);
    var errorCode :- ReadI16(s, o + 4);
    var highwaterMarkOffset :- ReadI64(s, o + 6);
    var messageSetSize :- ReadI32(s, o + 14);
    if messageSetSize < 0 then None
    else
      var messages :- ParseSet(ParseMessage, ZeroMessage, s, o + 18, messageSetSize);
      Some((TopicData(partition, errorCode, highwaterMarkOffset, messageSetSize, messages.0), messages.1))
  }

  /** fetch_response.go:52-104: a topic's name, then its partitions. */
  function ParseFetchTopic(s: seq<byte>, o: nat): Option<(FetchTopic, nat)> {
    var nameLength :- ReadU16(s, o);
    var name :- ReadBytes(s, o + 2, nameLength);
    var count :- ReadU32(s, o + 2 + nameLength);
    var datas :- ParseMany(ParseTopicData, s, o + 6 + nameLength, count);
    Some((FetchTopic(name, datas.0), datas.1))
  }

  /**
    fetch_response.go:37-107: the topic count at offset 0, then the topics.
    Where the last topic ends is not checked.
  */
  function ParseFetch(s: seq<byte>): Option<FetchResponse> {
    var count :- ReadU32(s, 0);
    var topics :- ParseMany(ParseFetchTopic, s, 4, count);
    Some(topics.0)
  }

  // ---------------------------------------------------------------------
  // Properties of the reading.

  /** The bytes an optional buffer takes on the wire after its length. */
  function Size(b: Option<seq<byte>>): nat {
    if b.Some? then |b.value| else 0
  }

  /**
    A length of -1 gives no buffer and reads nothing more; a length k >= 0
    gives exactly the next k bytes; anything else, or too few bytes, fails.
  */
  lemma NullableLayout(s: seq<byte>, o: nat)
    ensures ParseNullable(s, o).Some? <==>
      && o + 4 <= |s|
      && (ReadI32(s, o).value == -1 || 0 <= ReadI32(s, o).value <= |s| - o - 4)
    ensures ParseNullable(s, o).Some? ==>
      var (b, next) := ParseNullable(s, o).value;
      var length := ReadI32(s, o).value;
      && (b.None? <==> length == -1)
      && (b.Some? ==> length == |b.value| && b.value == s[o + 4..next])
      && next == o + 4 + Size(b)
  {
  }

  /**
    A message's fixed fields sit at fixed offsets, and it takes
    26 + max(keyLen, 0) + max(valueLen, 0) bytes.
  */
  lemma MessageLayout(s: seq<byte>, o: nat)
    requires ParseMessage(s, o).Some?
    ensures var (m, next) := ParseMessage(s, o).value;
      && ReadI64(s, o) == Some(m.offset)
      && ReadI32(s, o + 8) == Some(m.messageSize)
      && ReadU32(s, o + 12) == Some(m.crc)
      && ReadI8(s, o + 16) == Some(m.magicByte)
      && ReadI8(s, o + 17) == Some(m.attributes)
      && ParseNullable(s, o + 18) == Some((m.key, o + 22 + Size(m.key)))
      && ParseNullable(s, o + 22 + Size(m.key)) == Some((m.value, next))
      && next == o + 26 + Size(m.key) + Size(m.value)
  {
    NullableLayout(s, o + 18);
    NullableLayout(s, ParseNullable(s, o + 18).value.1);
  }

  /**
    A partition's header takes 18 bytes and its fields are as read; the set
    size is non-negative and the message set has exactly that many entries.
  */
  lemma TopicDataLayout(s: seq<byte>, o: nat)
    requires ParseTopicData(s, o).Some?
    ensures var (d, next) := ParseTopicData(s, o).value;
      && ReadI32(s, o) == Some(d.partition)
      && ReadI16(s, o + 4) == Some(d.errorCode)
      && ReadI64(s, o + 6) == Some(d.highwaterMarkOffset)
      && ReadI32(s, o + 14) == Some(d.messageSetSize)
      && 0 <= d.messageSetSize
      && |d.messageSet| == d.messageSetSize
      && ParseSet(ParseMessage, ZeroMessage, s, o + 18, d.messageSetSize) == Some((d.messageSet, next))
  {
  }

  /**
    fetch_response.go:52-59: a topic's name length, name and partition count
    sit at offsets 0, 2 and 2 + nameLen, and it has as many partitions as
    the count says.
  */
  lemma FetchTopicLayout(s: seq<byte>, o: nat)
    requires ParseFetchTopic(s, o).Some?
    ensures var t := ParseFetchTopic(s, o).value.0;
      && ReadU16(s, o) == Some(|t.topicName|)
      && t.topicName == s[o + 2..o + 2 + |t.topicName|]
      && ReadU32(s, o + 2 + |t.topicName|) == Some(|t.topicDatas|)
  {
  }

  /**
    fetch_response.go:43-51: the topic count is read at offset 0, and the
    response is exactly that many topics read from offset 4.
  */
  lemma FetchLayout(s: seq<byte>)
    ensures ParseFetch(s).Some? ==>
      && ReadU32(s, 0) == Some(|ParseFetch(s).value|)
      && ParseMany(ParseFetchTopic, s, 4, |ParseFetch(s).value|).Some?
      && ParseMany(ParseFetchTopic, s, 4, |ParseFetch(s).value|).value.0 == ParseFetch(s).value
  {
  }

  /**
    A message set is a counted read of its first `read` items, of which
    none but the last ends at the end of the buffer, followed by `zero`
    entries; it stops short of `n` only when the buffer has ended.
  */
  lemma {:induction false} SetStopsAtEnd<T>(parse: Parser<T>, zero: T, s: seq<byte>, o: nat, n: nat) returns (read: nat)
    requires ParseSet(parse, zero, s, o, n).Some?
    ensures read <= n
    ensures var (ms, next) := ParseSet(parse, zero, s, o, n).value;
      && ParseMany(parse, s, o, read) == Some((ms[..read], next))
      && ms[read..] == Repeat(zero, n - read)
      && (read < n ==> 0 < read && next == |s|)
    ensures forall j :: 0 < j < read ==> ParseMany(parse, s, o, j).Some? && ParseMany(parse, s, o, j).value.1 != |s|
    decreases n
  {
    if n == 0 {
      return 0;
    }
    var m := parse(s, o).value;
    var (ms, next) := ParseSet(parse, zero, s, o, n).value;
    if m.1 == |s| {
      read := 1;
      assert ParseMany(parse, s, m.1, 0) == Some(([], m.1));
      assert ms == [m.0] + Repeat(zero, n - 1);
      assert ms[..1] == [m.0] + [];
      assert ms[1..] == Repeat(zero, n - 1);
    } else {
      var rest := SetStopsAtEnd(parse, zero, s, m.1, n - 1);
      read := rest + 1;
      var tail := ParseSet(parse, zero, s, m.1, n - 1).value.0;
      assert ms == [m.0] + tail;
      assert ms[..read] == [m.0] + tail[..rest];
      assert ms[read..] == tail[rest..];
      forall j | 0 < j < read
        ensures ParseMany(parse, s, o, j).Some? && ParseMany(parse, s, o, j).value.1 != |s|
      {
        if j == 1 {
          assert ParseMany(parse, s, m.1, 0) == Some(([], m.1));
        } else {
          assert ParseMany(parse, s, m.1, j - 1).Some?;
        }
      }
    }
  }

  // ---------------------------------------------------------------------
  // The step-by-step decoder.

  /** Go's `copy(dst, payload[o:o+len(dst)])`. */
  method CopyBytes(dst: array<byte>, s: seq<byte>, o: nat)
    requires o + dst.Length <= |s|
    modifies dst
    ensures dst[..] == s[o..o + dst.Length]
  {
    var i := 0;
    while i < dst.Length
      invariant 0 <= i <= dst.Length
      invariant dst[..i] == s[o..o + i]
    {
      dst[i] := s[o + i];
      assert dst[..i + 1] == dst[..i] + [dst[i]];
      i := i + 1;
    }
    assert dst[..] == dst[..dst.Length];
  }

  /** fetch_response.go:81-89: a length, then nil or a fresh buffer copied from the payload. */
  method DecodeNullable(s: seq<byte>, o: nat) returns (r: Option<(Option<seq<byte>>, nat)>)
    ensures r == ParseNullable(s, o)
  {
    var length := ReadI32(s, o);
    if length.None? {
      return None;
    }
    var offset: nat := o + 4;
    if length.value == -1 {
      return Some((None, offset));
    }
    if length.value < -1 {
      return None;
    }
    var n: nat := length.value;
    var buffer := new byte[n];
    if offset + n > |s| {
      return None;
    }
    CopyBytes(buffer, s, offset);
    return Some((Some(buffer[..]), offset + n));
  }

  /** fetch_response.go:71-99: one message. */
  method DecodeMessage(s: seq<byte>, o: nat) returns (r: Option<(Message, nat)>)
    ensures r == ParseMessage(s, o)
  {
    var offset: nat := o;
    var messageOffset := ReadI64(s, offset);
    if messageOffset.None? {
      return None;
    }
    offset := offset + 8;
    var messageSize := ReadI32(s, offset);
    if messageSize.None? {
      return None;
    }
    offset := offset + 4;
    var crc := ReadU32(s, offset);
    if crc.None? {
      return None;
    }
    offset := offset + 4;
    var magicByte := ReadI8(s, offset);
    if magicByte.None? {
      return None;
    }
    offset := offset + 1;
    var attributes := ReadI8(s, offset);
    if attributes.None? {
      return None;
    }
    offset := offset + 1;
    var key := DecodeNullable(s, offset);
    if key.None? {
      return None;
    }
    offset := key.value.1;
    var value := DecodeNullable(s, offset);
    if value.None? {
      return None;
    }
    offset := value.value.1;
    var m := Message(messageOffset.value, messageSize.value, crc.value, magicByte.value, attributes.value,
                     key.value.0, value.value.0);
    return Some((m, offset));
  }

  /** The invariant of a message loop: the items read so far are a prefix of the set. */
  ghost predicate SetSoFar<T>(parse: Parser<T>, zero: T, s: seq<byte>, o: nat, n: nat, done: seq<T>, offset: nat) {
    && |done| <= n
    && ParseSet(parse, zero, s, o, n) == Prepend(done, ParseSet(parse, zero, s, offset, n - |done|))
  }

  lemma SetStep<T>(parse: Parser<T>, zero: T, s: seq<byte>, o: nat, n: nat, done: seq<T>, offset: nat, item: (T, nat))
    requires SetSoFar(parse, zero, s, o, n, done, offset)
    requires |done| < n && parse(s, offset) == Some(item) && item.1 != |s|
    ensures SetSoFar(parse, zero, s, o, n, done + [item.0], item.1)
  {
    PrependStep(done, item.0, ParseSet(parse, zero, s, item.1, n - |done| - 1));
  }

  lemma SetStop<T>(parse: Parser<T>, zero: T, s: seq<byte>, o: nat, n: nat, done: seq<T>, offset: nat, item: (T, nat))
    requires SetSoFar(parse, zero, s, o, n, done, offset)
    requires |done| < n && parse(s, offset) == Some(item) && item.1 == |s|
    ensures ParseSet(parse, zero, s, o, n) == Some((done + [item.0] + Repeat(zero, n - |done| - 1), item.1))
  {
    assert done + ([item.0] + Repeat(zero, n - |done| - 1)) == done + [item.0] + Repeat(zero, n - |done| - 1);
  }

  lemma SetStart<T>(parse: Parser<T>, zero: T, s: seq<byte>, o: nat, n: nat)
    ensures SetSoFar(parse, zero, s, o, n, [], o)
  {
    PrependNothing(ParseSet(parse, zero, s, o, n));
  }

  lemma SetFails<T>(parse: Parser<T>, zero: T, s: seq<byte>, o: nat, n: nat, done: seq<T>, offset: nat)
    requires SetSoFar(parse, zero, s, o, n, done, offset)
    requires |done| < n && parse(s, offset).None?
    ensures ParseSet(parse, zero, s, o, n).None?
  {
  }

  lemma SetEnd<T>(parse: Parser<T>, zero: T, s: seq<byte>, o: nat, n: nat, done: seq<T>, offset: nat)
    requires SetSoFar(parse, zero, s, o, n, done, offset)
    requires |done| == n
    ensures ParseSet(parse, zero, s, o, n) == Some((done, offset))
  {
    assert done + [] == done;
  }

  lemma {:induction false} SameSet<T>(p: Parser<T>, q: Parser<T>, zero: T, s: seq<byte>, o: nat, n: nat)
    requires SameParser(p, q)
    ensures ParseSet(p, zero, s, o, n) == ParseSet(q, zero, s, o, n)
    decreases n
  {
    assert At(s, o);
    if n > 0 && p(s, o).Some? && p(s, o).value.1 != |s| {
      SameSet(p, q, zero, s, p(s, o).value.1, n - 1);
    }
  }

  /** `DecodeMessage`, stated through an alias of `ParseMessage`. */
  method ReadMessage(ghost parse: Parser<Message>, s: seq<byte>, o: nat) returns (r: Option<(Message, nat)>)
    requires SameParser(parse, ParseMessage)
    ensures r == parse(s, o)
  {
    r := DecodeMessage(s, o);
    assert At(s, o);
  }

  /**
    fetch_response.go:69-103: the message set is preallocated with zero
    messages and filled by index; the loop breaks when the cursor reaches
    the end of the buffer.  The ghost `parse` is `ParseMessage` under another
    name, a proof device (see `Cursor.At`) with no counterpart in the Go code.
  */
  method DecodeMessageSet(ghost parse: Parser<Message>, s: seq<byte>, o: nat, n: nat)
    returns (r: Option<(seq<Message>, nat)>)
    requires SameParser(parse, ParseMessage)
    ensures r == ParseSet(parse, ZeroMessage, s, o, n)
  {
    var messages := new Message[n](_ => ZeroMessage);
    var offset: nat := o;
    var k := 0;
    SetStart(parse, ZeroMessage, s, o, n);
    while k < n
      invariant 0 <= k <= n
      invariant forall i :: k <= i < n ==> messages[i] == ZeroMessage
      invariant SetSoFar(parse, ZeroMessage, s, o, n, messages[..k], offset)
    {
      var message := ReadMessage(parse, s, offset);
      if message.None? {
        SetFails(parse, ZeroMessage, s, o, n, messages[..k], offset);
        return None;
      }
      ghost var before := messages[..k];
      messages[k] := message.value.0;
      assert messages[..k + 1] == before + [message.value.0];
      if message.value.1 == |s| {
        SetStop(parse, ZeroMessage, s, o, n, before, offset, message.value);
        assert messages[..] == before + [message.value.0] + Repeat(ZeroMessage, n - k - 1);
        return Some((messages[..], message.value.1));
      }
      SetStep(parse, ZeroMessage, s, o, n, before, offset, message.value);
      offset := message.value.1;
      k := k + 1;
    }
    assert messages[..] == messages[..n];
    SetEnd(parse, ZeroMessage, s, o, n, messages[..], offset);
    return Some((messages[..], offset));
  }

  /** fetch_response.go:69-103: a partition's message set. */
  method DecodeMessages(s: seq<byte>, o: nat, n: nat) returns (r: Option<(seq<Message>, nat)>)
    ensures r == ParseSet(ParseMessage, ZeroMessage, s, o, n)
  {
    ghost var parse := Alias(ParseMessage);
    r := DecodeMessageSet(parse, s, o, n);
    SameSet(parse, ParseMessage, ZeroMessage, s, o, n);
  }

  /** fetch_response.go:61-103: one partition. */
  method DecodeTopicData(s: seq<byte>, o: nat) returns (r: Option<(TopicData, nat)>)
    ensures r == ParseTopicData(s, o)
  {
    var offset: nat := o;
    var partition := ReadI32(s, offset);
    if partition.None? {
      return None;
    }
    offset := offset + 4;
    var errorCode := ReadI16(s, offset);
    if errorCode.None? {
      return None;
    }
    offset := offset + 2;
    var highwaterMarkOffset := ReadI64(s, offset);
    if highwaterMarkOffset.None? {
      return None;
    }
    offset := offset + 8;
    var messageSetSize := ReadI32(s, offset);
    if messageSetSize.None? {
      return None;
    }
    offset := offset + 4;
    if messageSetSize.value < 0 {
      return None;
    }
    var messages := DecodeMessages(s, offset, messageSetSize.value);
    if messages.None? {
      return None;
    }
    var d := TopicData(partition.value, errorCode.value, highwaterMarkOffset.value, messageSetSize.value,
                       messages.value.0);
    return Some((d, messages.value.1));
  }

  /** fetch_response.go:59-104: the partition loop of a topic. */
  method DecodeTopicDatas(s: seq<byte>, o: nat, n: nat) returns (r: Option<(seq<TopicData>, nat)>)
    ensures r == ParseMany(ParseTopicData, s, o, n)
  {
    var datas := new TopicData[n];
    var offset: nat := o;
    var j := 0;
    ManyStart(ParseTopicData, s, o, n);
    while j < n
      invariant 0 <= j <= n
      invariant ManySoFar(ParseTopicData, s, o, n, datas[..j], offset)
    {
      var data := DecodeTopicData(s, offset);
      if data.None? {
        ManyFails(ParseTopicData, s, o, n, datas[..j], offset);
        return None;
      }
      ghost var before := datas[..j];
      datas[j] := data.value.0;
      assert datas[..j + 1] == before + [data.value.0];
      ManyStep(ParseTopicData, s, o, n, before, offset, data.value);
      offset := data.value.1;
      j := j + 1;
    }
    assert datas[..] == datas[..n];
    ManyEnd(ParseTopicData, s, o, n, datas[..], offset);
    return Some((datas[..], offset));
  }

  /** fetch_response.go:52-104: one topic. */
  method DecodeFetchTopic(s: seq<byte>, o: nat) returns (r: Option<(FetchTopic, nat)>)
    ensures r == ParseFetchTopic(s, o)
  {
    var offset: nat := o;
    var nameLength := ReadU16(s, offset);
    if nameLength.None? {
      return None;
    }
    offset := offset + 2;
    var name := ReadBytes(s, offset, nameLength.value);
    if name.None? {
      return None;
    }
    offset := offset + nameLength.value;
    var count := ReadU32(s, offset);
    if count.None? {
      return None;
    }
    offset := offset + 4;
    var datas := DecodeTopicDatas(s, offset, count.value);
    if datas.None? {
      return None;
    }
    return Some((FetchTopic(name.value, datas.value.0), datas.value.1));
  }

  /**
    fetch_response.go:37-108.  `None` is a run-time panic of the Go code (a
    read past the end, a negative `make` size); otherwise the decoded topics,
    in wire order.  The Go function's error result is always nil.
  */
  method DecodeFetchResponse(payload: seq<byte>) returns (r: Option<FetchResponse>)
    ensures r == ParseFetch(payload)
  {
    var topicDataCount := ReadU32(payload, 0);
    if topicDataCount.None? {
      return None;
    }
    var n: nat := topicDataCount.value;
    var offset: nat := 4;
    var topics := new FetchTopic[n];
    var i := 0;
    ManyStart(ParseFetchTopic, payload, 4, n);
    while i < n
      invariant 0 <= i <= n
      invariant ManySoFar(ParseFetchTopic, payload, 4, n, topics[..i], offset)
    {
      var topic := DecodeFetchTopic(payload, offset);
      if topic.None? {
        ManyFails(ParseFetchTopic, payload, 4, n, topics[..i], offset);
        return None;
      }
      ghost var before := topics[..i];
      topics[i] := topic.value.0;
      assert topics[..i + 1] == before + [topic.value.0];
      ManyStep(ParseFetchTopic, payload, 4, n, before, offset, topic.value);
      offset := topic.value.1;
      i := i + 1;
    }
    assert topics[..] == topics[..n];
    ManyEnd(ParseFetchTopic, payload, 4, n, topics[..], offset);
    return Some(topics[..]);
  }
}
