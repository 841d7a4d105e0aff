/** An encoding that meets what is assumed of the library: the one of section 3 of RFC 8949, with lengths in
    their shortest form and numbers in the width they carry. */
module CborCodec {
  import opened Prelude
  import opened Cbor

  function Power(w: nat): nat {
    if w == 0 then 1 else TWO_8 * Power(w - 1)
  }

  /** The last `w` bytes of `n`, most significant first. */
  function BigEndian(n: nat, w: nat): (r: seq<Byte>)
    ensures |r| == w
  {
    if w == 0 then [] else BigEndian(n / TWO_8, w - 1) + [n % TWO_8]
  }

  function FromBigEndian(b: seq<Byte>): nat {
    if b == [] then 0 else TWO_8 * FromBigEndian(b[..|b| - 1]) + b[|b| - 1]
  }

  lemma {:induction false} BigEndianReads(n: nat, w: nat)
    requires n < Power(w)
    ensures FromBigEndian(BigEndian(n, w)) == n
  {
    if w > 0 {
      BigEndianReads(n / TWO_8, w - 1);
      assert BigEndian(n, w)[..w - 1] == BigEndian(n / TWO_8, w - 1);
    }
  }

  lemma Powers()
    ensures Power(1) == TWO_8 && Power(2) == TWO_16 && Power(4) == TWO_32 && Power(8) == TWO_64
  {
    assert Power(2) == TWO_8 * Power(1);
    assert Power(4) == TWO_8 * (TWO_8 * Power(2));
    assert Power(6) == TWO_8 * (TWO_8 * Power(4));
    assert Power(8) == TWO_8 * (TWO_8 * Power(6));
  }

  /** Bytes that follow an initial byte with this additional information. */
  function Following(info: nat): nat {
    if info == 24 then 1 else if info == 25 then 2 else if info == 26 then 4 else if info == 27 then 8 else 0
  }

  function InitialByte(major: nat, info: nat): Byte
    requires major < 8 && info < 32
  {
    32 * major + info
  }

  function Head(major: nat, info: nat, n: nat): seq<Byte>
    requires major < 8 && info < 32
  {
    [InitialByte(major, info)] + BigEndian(n, Following(info))
  }

  /** The additional information of a length in its shortest form. */
  function Shortest(n: Word64): (info: nat)
    ensures info < 28
  {
    if n < 24 then n else if n < TWO_8 then 24 else if n < TWO_16 then 25 else if n < TWO_32 then 26 else 27
  }

  /** What a head says: major type, additional information, argument, and the bytes after it. */
  datatype Heading = Heading(major: nat, info: nat, n: Word64, rest: seq<Byte>)

  function ReadHead(b: seq<Byte>): (r: Option<Heading>)
    ensures r.Some? ==> |r.value.rest| < |b|
  {
    if b == [] then None
    else
      var major, info := b[0] / 32, b[0] % 32;
      var w := Following(info);
      if |b| < 1 + w then None
      else
        var n := if info < 24 then info else FromBigEndian(b[1..1 + w]);
        if n >= TWO_64 then None else Some(Heading(major, info, n, b[1 + w..]))
  }

  /** May this additional information introduce the argument `n`? */
  predicate Carries(info: nat, n: nat) {
    if info < 24 then n == info else if info < 28 then n < Power(Following(info)) else info < 32 && n == 0
  }

  lemma HeadReads(major: nat, info: nat, n: nat, rest: seq<Byte>)
    requires major < 8 && Carries(info, n)
    ensures n < TWO_64 && ReadHead(Head(major, info, n) + rest) == Some(Heading(major, info, n, rest))
  {
    Powers();
    var w := Following(info);
    var b := Head(major, info, n) + rest;
    assert b[0] == InitialByte(major, info) && b[0] / 32 == major && b[0] % 32 == info;
    assert b[1..1 + w] == BigEndian(n, w) && b[1 + w..] == rest;
    if info >= 24 && info < 28 {
      BigEndianReads(n, w);
    }
  }

  // ---- items ------------------------------------------------------------------------------------------------------

  function InfoOf(w: UintWidth, n: Word64): nat {
    match w case W8 => if n < 24 then n % 24 else 24 case W16 => 25 case W32 => 26 case W64 => 27
  }

  function Codes(s: CText): Bytes {
    seq(|s|, i requires 0 <= i < |s| => s[i] as int)
  }

  function Chars(b: Bytes): CText {
    seq(|b|, i requires 0 <= i < |b| => b[i] as char)
  }

  const BREAK: Byte := 0xFF
  const INDEFINITE: nat := 31

  function Encode(i: Item): seq<Byte> {
    match i
    case CborUint(w, n) => Head(0, InfoOf(w, n), n)
    case CborBytes(data) => Head(2, Shortest(|data|), |data|) + data
    case CborText(text) => Head(3, Shortest(|text|), |text|) + Codes(text)
    case CborIndefiniteBytes => Head(2, INDEFINITE, 0) + [BREAK]
    case CborIndefiniteText => Head(3, INDEFINITE, 0) + [BREAK]
    case CborMap(pairs) => Head(5, Shortest(|pairs| % TWO_64), |pairs|) + EncodePairs(pairs)
    case CborFloat(size, bits) => Head(7, match size case F16 => 25 case F32 => 26 case F64 => 27, bits)
    case CborCtrl(code) => Head(7, code % 24, code)
    case CborOther(_) => []
  }

  function EncodePairs(pairs: seq<Pair>): seq<Byte> {
    if pairs == [] then [] else EncodePair(pairs[0]) + EncodePairs(pairs[1..])
  }

  function EncodePair(p: Pair): seq<Byte> {
    Encode(p.key) + Encode(p.value)
  }

  type Read<T> = Option<(T, seq<Byte>)>

  function Uint(h: Heading): Option<Item> {
    if h.info <= 24 then Some(CborUint(W8, h.n))
    else if h.info == 25 then Some(CborUint(W16, h.n))
    else if h.info == 26 then Some(CborUint(W32, h.n))
    else if h.info == 27 then Some(CborUint(W64, h.n))
    else None
  }

  function FloatOrSimple(h: Heading): Option<Item> {
    if CTRL_FALSE <= h.info <= CTRL_UNDEFINED then Some(CborCtrl(h.info))
    else if h.info == 25 then Some(CborFloat(F16, h.n))
    else if h.info == 26 then Some(CborFloat(F32, h.n))
    else if h.info == 27 then Some(CborFloat(F64, h.n))
    else None
  }

  /** The bytes of a string: definite, or indefinite and empty. */
  function Content(h: Heading): (r: Read<Option<Bytes>>)
    ensures r.Some? ==> |r.value.1| <= |h.rest|
  {
    if h.info == INDEFINITE then
      if h.rest == [] || h.rest[0] != BREAK then None else Some((None, h.rest[1..]))
    else if h.info > 27 || |h.rest| < h.n then None
    else Some((Some(h.rest[..h.n]), h.rest[h.n..]))
  }

  function BytesItem(d: Option<Bytes>): Item {
    match d case Some(data) => CborBytes(data) case None => CborIndefiniteBytes
  }

  function TextItem(d: Option<Bytes>): Item {
    match d case Some(data) => CborText(Chars(data)) case None => CborIndefiniteText
  }

  /** Read one item off the front. */
  function Decode(b: seq<Byte>): (r: Read<Item>)
    ensures r.Some? ==> |r.value.1| < |b|
    decreases |b|, 0
  {
    var head := ReadHead(b);
    if head.None? then None
    else
      var h := head.value;
      if h.major == 0 then match Uint(h) case Some(i) => Some((i, h.rest)) case None => None
      else if h.major == 2 then match Content(h) case Some((d, rest)) => Some((BytesItem(d), rest)) case None => None
      else if h.major == 3 then match Content(h) case Some((d, rest)) => Some((TextItem(d), rest)) case None => None
      else if h.major == 5 && h.info <= 27 then
        match DecodePairs(h.n, h.rest) case Some((ps, rest)) => Some((CborMap(ps), rest)) case None => None
      else if h.major == 7 then match FloatOrSimple(h) case Some(i) => Some((i, h.rest)) case None => None
      else None
  }

  function DecodePairs(n: nat, b: seq<Byte>): (r: Read<seq<Pair>>)
    ensures r.Some? ==> |r.value.1| <= |b|
    decreases |b|, 1
  {
    if n == 0 then Some(([], b))
    else
      match Decode(b)
      case None => None
      case Some((key, b1)) =>
        match Decode(b1)
        case None => None
        case Some((value, b2)) =>
          match DecodePairs(n - 1, b2)
          case None => None
          case Some((pairs, rest)) => Some(([Pair(key, value)] + pairs, rest))
  }

  lemma ShortestCarries(n: Word64)
    ensures Carries(Shortest(n), n)
  {
    Powers();
  }

  lemma CodesRead(s: CText)
    ensures Chars(Codes(s)) == s
  {
  }

  lemma ContentReads(major: nat, data: Bytes, rest: seq<Byte>)
    requires major < 8
    ensures var head := ReadHead(Head(major, Shortest(|data|), |data|) + data + rest);
            head.Some? && head.value.major == major && Content(head.value) == Some((Some(data), rest))
  {
    var n := |data|;
    ShortestCarries(n);
    HeadReads(major, Shortest(n), n, data + rest);
    assert Head(major, Shortest(n), n) + data + rest == Head(major, Shortest(n), n) + (data + rest);
    assert (data + rest)[..n] == data && (data + rest)[n..] == rest;
  }

  lemma IndefiniteReads(major: nat, rest: seq<Byte>)
    requires major < 8
    ensures var head := ReadHead(Head(major, INDEFINITE, 0) + [BREAK] + rest);
            head.Some? && head.value.major == major && Content(head.value) == Some((None, rest))
  {
    HeadReads(major, INDEFINITE, 0, [BREAK] + rest);
    assert Head(major, INDEFINITE, 0) + [BREAK] + rest == Head(major, INDEFINITE, 0) + ([BREAK] + rest);
    assert ([BREAK] + rest)[1..] == rest;
  }

  lemma UintReads(w: UintWidth, n: Word64, rest: seq<Byte>)
    requires n < WidthBound(w)
    ensures Decode(Encode(CborUint(w, n)) + rest) == Some((CborUint(w, n), rest))
  {
    Powers();
    HeadReads(0, InfoOf(w, n), n, rest);
    hide Head, ReadHead, Power;
  }

  lemma FloatReads(size: FloatWidth, bits: Word64, rest: seq<Byte>)
    requires IsNumber(size, bits)
    ensures Decode(Encode(CborFloat(size, bits)) + rest) == Some((CborFloat(size, bits), rest))
  {
    Powers();
    HeadReads(7, match size case F16 => 25 case F32 => 26 case F64 => 27, bits, rest);
    hide Head, ReadHead, Power;
  }

  lemma SimpleReads(code: Byte, rest: seq<Byte>)
    requires CTRL_FALSE <= code <= CTRL_UNDEFINED
    ensures Decode(Encode(CborCtrl(code)) + rest) == Some((CborCtrl(code), rest))
  {
    HeadReads(7, code, code, rest);
    hide Head, ReadHead;
  }

  /** Whatever can be encoded is read back, and what follows it is left. */
  lemma {:induction false} DecodesEncoded(i: Item, rest: seq<Byte>)
    requires Encodable(i)
    ensures Decode(Encode(i) + rest) == Some((i, rest))
    decreases i
  {
    hide Head, ReadHead, Shortest, Content;
    match i
    case CborUint(w, n) => UintReads(w, n, rest);
    case CborBytes(data) => ContentReads(2, data, rest);
    case CborText(text) =>
      ContentReads(3, Codes(text), rest);
      CodesRead(text);
    case CborIndefiniteBytes => IndefiniteReads(2, rest);
    case CborIndefiniteText => IndefiniteReads(3, rest);
    case CborMap(pairs) =>
      PairsRead(pairs, rest);
      MapReads(pairs, rest);
    case CborFloat(size, bits) => FloatReads(size, bits, rest);
    case CborCtrl(code) => SimpleReads(code, rest);
  }

  lemma Regroup(a: seq<Byte>, b: seq<Byte>, c: seq<Byte>)
    ensures a + b + c == a + (b + c)
  {
  }

  lemma MapReads(pairs: seq<Pair>, rest: seq<Byte>)
    requires |pairs| < TWO_64 && DecodePairs(|pairs|, EncodePairs(pairs) + rest) == Some((pairs, rest))
    ensures Decode(Encode(CborMap(pairs)) + rest) == Some((CborMap(pairs), rest))
  {
    hide Decode, DecodePairs, ReadHead, Head, EncodePairs, Shortest, Carries;
    var n := |pairs|;
    var tail := EncodePairs(pairs) + rest;
    ShortestCarries(n);
    HeadReads(5, Shortest(n), n, tail);
    Regroup(Head(5, Shortest(n), n), EncodePairs(pairs), rest);
    MapFollows(Head(5, Shortest(n), n) + tail, pairs, rest);
  }

  lemma MapFollows(b: seq<Byte>, pairs: seq<Pair>, rest: seq<Byte>)
    requires ReadHead(b).Some? && ReadHead(b).value.major == 5 && ReadHead(b).value.info <= 27
    requires DecodePairs(ReadHead(b).value.n, ReadHead(b).value.rest) == Some((pairs, rest))
    ensures Decode(b) == Some((CborMap(pairs), rest))
  {
    hide ReadHead, DecodePairs;
  }

  lemma {:induction false} PairsRead(pairs: seq<Pair>, rest: seq<Byte>)
    requires forall p | p in pairs :: Encodable(p.key) && Encodable(p.value)
    ensures DecodePairs(|pairs|, EncodePairs(pairs) + rest) == Some((pairs, rest))
    decreases pairs
  {
    if pairs == [] {
      assert [] + rest == rest;
    } else {
      var more := EncodePairs(pairs[1..]) + rest;
      PairReads(pairs[0], more);
      PairsRead(pairs[1..], rest);
      Regroup(EncodePair(pairs[0]), EncodePairs(pairs[1..]), rest);
      DecodeStep(pairs[0], pairs[1..], EncodePair(pairs[0]) + more, rest);
      hide EncodePair, DecodePairs, Decode;
      assert [pairs[0]] + pairs[1..] == pairs;
    }
  }

  lemma DecodeStep(p: Pair, ps: seq<Pair>, b: seq<Byte>, rest: seq<Byte>)
    requires Decode(b).Some? && Decode(b).value.0 == p.key
    requires Decode(Decode(b).value.1).Some? && Decode(Decode(b).value.1).value.0 == p.value
    requires DecodePairs(|ps|, Decode(Decode(b).value.1).value.1) == Some((ps, rest))
    ensures DecodePairs(1 + |ps|, b) == Some(([p] + ps, rest))
  {
    hide Decode;
  }

  lemma {:induction false} PairReads(p: Pair, rest: seq<Byte>)
    requires Encodable(p.key) && Encodable(p.value)
    ensures var first := Decode(EncodePair(p) + rest);
            first.Some? && first.value.0 == p.key && Decode(first.value.1) == Some((p.value, rest))
    decreases p
  {
    assert EncodePair(p) + rest == Encode(p.key) + (Encode(p.value) + rest);
    DecodesEncoded(p.key, Encode(p.value) + rest);
    DecodesEncoded(p.value, rest);
  }

  // ---- the library ------------------------------------------------------------------------------------------------

  function Load(b: seq<Byte>): Option<Item> {
    match Decode(b) case Some((i, _)) => Some(i) case None => None
  }

  /** The codec, with some conversion between the float widths. */
  function Codec(widen: (FloatWidth, Word64) -> Real64, narrow: Real64 -> Word64): Lib {
    Lib(i => Encode(i), b => Load(b), widen, narrow)
  }

  /** It is faithful, so what the theorems about runs assume of the library can be had. */
  lemma CodecIsFaithful(widen: (FloatWidth, Word64) -> Real64, narrow: Real64 -> Word64)
    requires forall b: Real64 :: widen(F64, b) == b
    ensures Faithful(Codec(widen, narrow))
  {
    forall i: Item | Encodable(i) ensures Encode(i) != [] && Load(Encode(i)) == Some(i) {
      DecodesEncoded(i, []);
      assert Encode(i) + [] == Encode(i);
    }
  }

  lemma SomeLibraryIsFaithful()
    ensures exists lib: Lib :: Faithful(lib)
  {
    var widen: (FloatWidth, Word64) -> Real64 := (size, b) => if IsNaN(b) then 0 else b;
    CodecIsFaithful(widen, b => 0);
  }
}
