/**
  Reading a byte buffer with one cursor.  A parser reads one item at an
  offset and returns it with the offset just past it, or `None` where the
  Go decoder would panic on a read past the end.  `ParseMany` reads a
  counted run of items, the shape of every `for i := 0; i < count; i++`
  loop of the decoders; `DecodeMany` is that loop, filling a preallocated
  array by index.
*/
module Cursor {
  import opened Wrappers
  import opened Primitives

  type Parser<T> = (seq<byte>, nat) -> Option<(T, nat)>

  /** `n` items read one after another with `parse`, in wire order. */
  function ParseMany<T>(parse: Parser<T>, s: seq<byte>, o: nat, n: nat): (r: Option<(seq<T>, nat)>)
    ensures r.Some? ==> |r.value.0| == n
    decreases n
  {
    if n == 0 then Some(([], o))
    else
      var first :- parse(s, o);
      var rest :- ParseMany(parse, s, first.1, n - 1);
      Some(([first.0] + rest.0, rest.1))
  }

  /** The items `xs` put in front of what a read returns. */
  function Prepend<T>(xs: seq<T>, r: Option<(seq<T>, nat)>): Option<(seq<T>, nat)> {
    match r
    case None => None
    case Some((ys, o)) => Some((xs + ys, o))
  }

  lemma PrependStep<T>(xs: seq<T>, x: T, r: Option<(seq<T>, nat)>)
    ensures Prepend(xs, if r.Some? then Some(([x] + r.value.0, r.value.1)) else None)
         == Prepend(xs + [x], r)
  {
    if r.Some? {
      assert xs + ([x] + r.value.0) == (xs + [x]) + r.value.0;
    }
  }

  lemma PrependNothing<T>(r: Option<(seq<T>, nat)>)
    ensures Prepend([], r) == r
  {
    if r.Some? {
      assert [] + r.value.0 == r.value.0;
    }
  }

  /**
    The invariant of a counted read loop: the items `done` read so far,
    followed by what the rest of the loop reads from `offset`, make up the
    whole run.
  */
  ghost predicate ManySoFar<T>(parse: Parser<T>, s: seq<byte>, o: nat, n: nat, done: seq<T>, offset: nat) {
    && |done| <= n
    && ParseMany(parse, s, o, n) == Prepend(done, ParseMany(parse, s, offset, n - |done|))
  }

  lemma ManyStart<T>(parse: Parser<T>, s: seq<byte>, o: nat, n: nat)
    ensures ManySoFar(parse, s, o, n, [], o)
  {
    PrependNothing(ParseMany(parse, s, o, n));
  }

  lemma ManyStep<T>(parse: Parser<T>, s: seq<byte>, o: nat, n: nat, done: seq<T>, offset: nat, item: (T, nat))
    requires ManySoFar(parse, s, o, n, done, offset)
    requires |done| < n && parse(s, offset) == Some(item)
    ensures ManySoFar(parse, s, o, n, done + [item.0], item.1)
  {
    PrependStep(done, item.0, ParseMany(parse, s, item.1, n - |done| - 1));
  }

  lemma ManyFails<T>(parse: Parser<T>, s: seq<byte>, o: nat, n: nat, done: seq<T>, offset: nat)
    requires ManySoFar(parse, s, o, n, done, offset)
    requires |done| < n && parse(s, offset).None?
    ensures ParseMany(parse, s, o, n).None?
  {
  }

  lemma ManyEnd<T>(parse: Parser<T>, s: seq<byte>, o: nat, n: nat, done: seq<T>, offset: nat)
    requires ManySoFar(parse, s, o, n, done, offset)
    requires |done| == n
    ensures ParseMany(parse, s, o, n) == Some((done, offset))
  {
    assert done + [] == done;
  }

  /** A counted loop that fills a preallocated array by index. */
  method DecodeMany<T(0)>(parse: Parser<T>, s: seq<byte>, o: nat, n: nat) returns (r: Option<(seq<T>, nat)>)
    ensures r == ParseMany(parse, s, o, n)
  {
    var items := new T[n];
    var offset: nat := o;
    var i := 0;
    ManyStart(parse, s, o, n);
    while i < n
      invariant 0 <= i <= n
      invariant ManySoFar(parse, s, o, n, items[..i], offset)
    {
      var item := parse(s, offset);
      if item.None? {
        ManyFails(parse, s, o, n, items[..i], offset);
        return None;
      }
      ghost var before := items[..i];
      items[i] := item.value.0;
      assert items[..i + 1] == before + [item.value.0];
      ManyStep(parse, s, o, n, before, offset, item.value);
      offset := item.value.1;
      i := i + 1;
    }
    assert items[..] == items[..n];
    ManyEnd(parse, s, o, n, items[..], offset);
    return Some((items[..], offset));
  }

  /**
    A trigger guard for the solver, with no counterpart in the Go code.
    Names a position of a buffer.  `SameParser` below is instantiated only
    where a proof names the position this way, so a loop that reads through
    an alias of a concrete parser does not unfold the concrete parser's
    definition at every offset it mentions.
  */
  ghost predicate At(s: seq<byte>, o: nat) {
    true
  }

  /** `p` and `q` read the same thing everywhere (a proof device guarded by `At`). */
  ghost predicate SameParser<T>(p: Parser<T>, q: Parser<T>) {
    forall s: seq<byte>, o: nat {:trigger At(s, o)} :: At(s, o) ==> p(s, o) == q(s, o)
  }

  /** A parser known only through what it reads (a proof device, not in the Go code). */
  lemma Alias<T>(q: Parser<T>) returns (p: Parser<T>)
    ensures SameParser(p, q)
  {
    p := q;
  }

  /** An alias and the parser it names read the same thing at `o`. */
  lemma SameAt<T>(p: Parser<T>, q: Parser<T>, s: seq<byte>, o: nat)
    requires SameParser(p, q)
    ensures p(s, o) == q(s, o)
  {
    assert At(s, o);
  }

  // ---------------------------------------------------------------------
  // Encodings read back.

  /**
    The bytes `e` sit in `s` at offset `o`, byte by byte.  Stated by
    recursion so that a proof sees one byte of it at a time; `HoldsSlice`
    gives the slice form.
  */
  ghost predicate Holds(s: seq<byte>, o: nat, e: seq<byte>)
    decreases |e|
  {
    o + |e| <= |s| && (e == [] || (s[o] == e[0] && Holds(s, o + 1, e[1..])))
  }

  lemma {:induction false} HoldsSlice(s: seq<byte>, o: nat, e: seq<byte>)
    ensures Holds(s, o, e) <==> o + |e| <= |s| && s[o..o + |e|] == e
    decreases |e|
  {
    if e != [] && o + |e| <= |s| {
      HoldsSlice(s, o + 1, e[1..]);
      assert s[o..o + |e|] == [s[o]] + s[o + 1..o + 1 + |e[1..]|];
      assert e == [e[0]] + e[1..];
    }
  }

  lemma HoldsSplit(s: seq<byte>, o: nat, a: seq<byte>, b: seq<byte>)
    requires Holds(s, o, a + b)
    ensures Holds(s, o, a) && Holds(s, o + |a|, b)
  {
    HoldsSlice(s, o, a + b);
    HoldsSlice(s, o, a);
    HoldsSlice(s, o + |a|, b);
    assert s[o..o + |a|] == s[o..o + |a + b|][..|a|];
    assert s[o + |a|..o + |a| + |b|] == s[o..o + |a + b|][|a|..];
  }

  lemma HoldsSplit3(s: seq<byte>, o: nat, a: seq<byte>, b: seq<byte>, c: seq<byte>)
    requires Holds(s, o, a + b + c)
    ensures Holds(s, o, a) && Holds(s, o + |a|, b) && Holds(s, o + |a| + |b|, c)
  {
    HoldsSplit(s, o, a + b, c);
    HoldsSplit(s, o, a, b);
  }

  lemma HoldsSplit4(s: seq<byte>, o: nat, a: seq<byte>, b: seq<byte>, c: seq<byte>, d: seq<byte>)
    requires Holds(s, o, a + b + c + d)
    ensures Holds(s, o, a) && Holds(s, o + |a|, b) && Holds(s, o + |a| + |b|, c)
    ensures Holds(s, o + |a| + |b| + |c|, d)
  {
    HoldsSplit(s, o, a + b + c, d);
    HoldsSplit3(s, o, a, b, c);
  }

  lemma HoldsBytes(s: seq<byte>, o: nat, e: seq<byte>)
    requires Holds(s, o, e)
    ensures ReadBytes(s, o, |e|) == Some(e)
  {
    HoldsSlice(s, o, e);
  }

  lemma HoldsI8(s: seq<byte>, o: nat, x: i8)
    requires Holds(s, o, [FromI8(x)])
    ensures ReadI8(s, o) == Some(x)
  {
    HoldsSlice(s, o, [FromI8(x)]);
    ReadEncodedI8(s, o, x);
  }

  lemma HoldsI16(s: seq<byte>, o: nat, x: i16)
    requires Holds(s, o, EncodeI16(x))
    ensures ReadI16(s, o) == Some(x)
  {
    HoldsSlice(s, o, EncodeI16(x));
    ReadEncodedI16(s, o, x);
  }

  lemma HoldsI32(s: seq<byte>, o: nat, x: i32)
    requires Holds(s, o, EncodeI32(x))
    ensures ReadI32(s, o) == Some(x)
  {
    HoldsSlice(s, o, EncodeI32(x));
    ReadEncodedI32(s, o, x);
  }

  lemma HoldsI64(s: seq<byte>, o: nat, x: i64)
    requires Holds(s, o, EncodeI64(x))
    ensures ReadI64(s, o) == Some(x)
  {
    HoldsSlice(s, o, EncodeI64(x));
    ReadEncodedI64(s, o, x);
  }

  lemma HoldsU32(s: seq<byte>, o: nat, x: u32)
    requires Holds(s, o, EncodeU32(x))
    ensures ReadU32(s, o) == Some(x)
  {
    HoldsSlice(s, o, EncodeU32(x));
    ReadEncodedU32(s, o, x);
  }

  lemma HoldsLength16(s: seq<byte>, o: nat, n: nat)
    requires n < 0x1_0000 && Holds(s, o, EncodeLength16(n))
    ensures ReadU16(s, o) == Some(n)
  {
    HoldsSlice(s, o, EncodeLength16(n));
    ReadEncodedLength16(s, o, n);
  }

  lemma HoldsLength32(s: seq<byte>, o: nat, n: nat)
    requires n < 0x1_0000_0000 && Holds(s, o, EncodeLength32(n))
    ensures ReadU32(s, o) == Some(n)
  {
    HoldsSlice(s, o, EncodeLength32(n));
    ReadEncodedLength32(s, o, n);
  }

  lemma HoldsSignedLength(s: seq<byte>, o: nat, n: nat)
    requires n < 0x8000_0000 && Holds(s, o, EncodeLength32(n))
    ensures ReadI32(s, o) == Some(n)
  {
    HoldsSlice(s, o, EncodeLength32(n));
    ReadEncodedSignedLength(s, o, n);
  }

  /** The encodings of `xs`, one after another. */
  function EncodeAll<T>(enc: T -> seq<byte>, xs: seq<T>): seq<byte>
    decreases |xs|
  {
    if xs == [] then [] else enc(xs[0]) + EncodeAll(enc, xs[1..])
  }

  /** If the encoding of `x` sits at `o`, `parse` reads `x` there and moves past it. */
  ghost predicate ReadsBackAt<T>(parse: Parser<T>, enc: T -> seq<byte>, x: T, s: seq<byte>, o: nat) {
    Holds(s, o, enc(x)) ==> parse(s, o) == Some((x, o + |enc(x)|))
  }

  /** Wherever the encoding of `x` sits, `parse` reads `x` and moves past it. */
  ghost predicate ReadsBack<T>(parse: Parser<T>, enc: T -> seq<byte>, x: T) {
    forall s: seq<byte>, o: nat :: ReadsBackAt(parse, enc, x, s, o)
  }

  /** A counted read of encodings that read back gives back the items. */
  lemma {:induction false} ManyReadsBack<T>(parse: Parser<T>, enc: T -> seq<byte>, xs: seq<T>, s: seq<byte>, o: nat)
    requires forall k :: 0 <= k < |xs| ==> ReadsBack(parse, enc, xs[k])
    requires Holds(s, o, EncodeAll(enc, xs))
    ensures ParseMany(parse, s, o, |xs|) == Some((xs, o + |EncodeAll(enc, xs)|))
    decreases |xs|
  {
    if xs != [] {
      HoldsSplit(s, o, enc(xs[0]), EncodeAll(enc, xs[1..]));
      assert ReadsBack(parse, enc, xs[0]);
      assert ReadsBackAt(parse, enc, xs[0], s, o);
      ManyReadsBack(parse, enc, xs[1..], s, o + |enc(xs[0])|);
      assert [xs[0]] + xs[1..] == xs;
    }
  }

  /** A count as four bytes, then the encodings of the items. */
  function EncodeCounted<T>(enc: T -> seq<byte>, xs: seq<T>): seq<byte> {
    EncodeLength32(|xs|) + EncodeAll(enc, xs)
  }

  /** A count followed by encodings that read back gives back the count and the items. */
  lemma CountedReadsBack<T>(parse: Parser<T>, enc: T -> seq<byte>, xs: seq<T>, s: seq<byte>, o: nat)
    requires |xs| < 0x1_0000_0000
    requires forall k :: 0 <= k < |xs| ==> ReadsBack(parse, enc, xs[k])
    requires Holds(s, o, EncodeCounted(enc, xs))
    ensures ReadU32(s, o) == Some(|xs|)
    ensures ParseMany(parse, s, o + 4, |xs|) == Some((xs, o + |EncodeCounted(enc, xs)|))
  {
    HoldsSplit(s, o, EncodeLength32(|xs|), EncodeAll(enc, xs));
    HoldsLength32(s, o, |xs|);
    ManyReadsBack(parse, enc, xs, s, o + 4);
  }

  /** Parsers that read the same thing everywhere read the same counted runs. */
  lemma {:induction false} SameMany<T>(p: Parser<T>, q: Parser<T>, s: seq<byte>, o: nat, n: nat)
    requires SameParser(p, q)
    ensures ParseMany(p, s, o, n) == ParseMany(q, s, o, n)
    decreases n
  {
    assert At(s, o);
    if n > 0 && p(s, o).Some? {
      SameMany(p, q, s, p(s, o).value.1, n - 1);
    }
  }
}

