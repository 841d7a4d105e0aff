/** CBOR items as trees (kinds as in section 3.1 of RFC 8949) and the two ways the code looks fields up. */
module Cbor {
  import opened Prelude

  datatype UintWidth = W8 | W16 | W32 | W64
  datatype FloatWidth = F16 | F32 | F64

  datatype Item =
    | CborUint(width: UintWidth, n: Word64)
    | CborBytes(data: Bytes)
    | CborText(text: CText)
    | CborIndefiniteBytes
    | CborIndefiniteText
    | CborMap(pairs: seq<Pair>)
    | CborFloat(size: FloatWidth, bits: Word64)
    | CborCtrl(code: Byte)
    | CborOther(major: Byte)

  datatype Pair = Pair(key: Item, value: Item)

  const CTRL_FALSE: Byte := 20
  const CTRL_TRUE: Byte := 21
  const CTRL_NULL: Byte := 22
  const CTRL_UNDEFINED: Byte := 23

  /** The library the two programs share: encoding, decoding and float conversion. */
  datatype Lib = Lib(
    ser: Item -> seq<Byte>,
    load: seq<Byte> -> Option<Item>,
    widen: (FloatWidth, Word64) -> Real64,
    narrow: Real64 -> Word64)

  function WidthBound(w: UintWidth): nat {
    match w case W8 => TWO_8 case W16 => TWO_16 case W32 => TWO_32 case W64 => TWO_64
  }

  /** The bits fit the width, and are not those of a NaN. */
  predicate IsNumber(size: FloatWidth, bits: Word64) {
    match size
    case F16 => bits < TWO_16 && bits % 0x8000 <= 0x7C00
    case F32 => bits < TWO_32 && bits % 0x8000_0000 <= 0x7F80_0000
    case F64 => !IsNaN(bits)
  }

  /** Items the programs put on the wire, and that every codec keeps apart: numbers fit their width, and the
      only simple values are false, true, null and undefined (section 3.3 of RFC 8949). */
  predicate Encodable(i: Item) {
    match i
    case CborUint(w, n) => n < WidthBound(w)
    case CborMap(pairs) => |pairs| < TWO_64 && forall p | p in pairs :: Encodable(p.key) && Encodable(p.value)
    case CborFloat(size, bits) => IsNumber(size, bits)
    case CborCtrl(code) => CTRL_FALSE <= code <= CTRL_UNDEFINED
    case CborOther(_) => false
    case _ => true
  }

  /** What is assumed of it: whatever can be encoded decodes to the same item, and a double is a double. */
  ghost predicate Faithful(lib: Lib) {
    && (forall i: Item :: Encodable(i) ==> lib.ser(i) != [] && lib.load(lib.ser(i)) == Some(i))
    && (forall b: Real64 :: lib.widen(F64, b) == b)
  }

  lemma MapEncodable(pairs: seq<Pair>)
    requires |pairs| < TWO_64 && forall p :: p in pairs ==> Encodable(p.key) && Encodable(p.value)
    ensures Encodable(CborMap(pairs))
  {
  }

  function BoolItem(b: bool): Item {
    CborCtrl(if b then CTRL_TRUE else CTRL_FALSE)
  }

  predicate IsText(i: Item) {
    i.CborText? || i.CborIndefiniteText?
  }

  predicate IsBytes(i: Item) {
    i.CborBytes? || i.CborIndefiniteBytes?
  }

  predicate IsFloatCtrl(i: Item) {
    i.CborFloat? || i.CborCtrl?
  }

  predicate IsBool(i: Item) {
    i.CborCtrl? && (i.code == CTRL_FALSE || i.code == CTRL_TRUE)
  }

  predicate IsNull(i: Item) {
    i == CborCtrl(CTRL_NULL)
  }

  /** `cbor_get_bool`: anything but `true` is false. */
  function GetBool(i: Item): bool {
    i == CborCtrl(CTRL_TRUE)
  }

  /** `CborReadUint`: read the payload at its encoded width. */
  function ReadUint(i: Item): Word64
    requires i.CborUint?
  {
    match i.width
    case W8 => i.n % TWO_8
    case W16 => i.n % TWO_16
    case W32 => i.n % TWO_32
    case W64 => i.n
  }

  /** The bytes of a string item; an indefinite one has no bytes of its own. */
  function TextOf(i: Item): CText {
    if i.CborText? then i.text else ""
  }

  /** `!strncmp(key, wanted, length of key)` for a key without NUL: the key is a prefix. */
  predicate Matches(key: Item, wanted: string) {
    IsText(key) && IsPrefix(TextOf(key), wanted)
  }

  /** `CborMapGet`: the value of the first pair with exactly this key. */
  function MapGet(pairs: seq<Pair>, wanted: string): Option<Item> {
    if pairs == [] then None
    else if IsText(pairs[0].key) && TextOf(pairs[0].key) == wanted then Some(pairs[0].value)
    else MapGet(pairs[1..], wanted)
  }

  method CborMapGet(pairs: seq<Pair>, wanted: string) returns (r: Option<Item>)
    ensures r == MapGet(pairs, wanted)
  {
    for i := 0 to |pairs|
      invariant MapGet(pairs, wanted) == MapGet(pairs[i..], wanted)
    {
      if IsText(pairs[i].key) && TextOf(pairs[i].key) == wanted {
        return Some(pairs[i].value);
      }
    }
    return None;
  }

  /** What a scan that keeps overwriting its result ends up with: the last pair whose key matches
      `wanted` and not `taken` (the name an earlier branch of the scan tests for). */
  function LastMatch(pairs: seq<Pair>, wanted: string, taken: Option<string>): Option<Item> {
    if pairs == [] then None
    else
      var p := pairs[|pairs| - 1];
      if Matches(p.key, wanted) && (taken.Some? ==> !Matches(p.key, taken.value)) then Some(p.value)
      else LastMatch(pairs[..|pairs| - 1], wanted, taken)
  }

  /** One more pair scanned. */
  lemma LastMatchStep(pairs: seq<Pair>, i: nat, wanted: string, taken: Option<string>)
    requires i < |pairs|
    ensures LastMatch(pairs[..0], wanted, taken) == None
    ensures LastMatch(pairs[..i + 1], wanted, taken)
            == if Matches(pairs[i].key, wanted) && (taken.Some? ==> !Matches(pairs[i].key, taken.value))
               then Some(pairs[i].value) else LastMatch(pairs[..i], wanted, taken)
  {
    assert pairs[..i + 1][..i] == pairs[..i];
  }

  /** Keys are distinct strings, none a proper prefix of `wanted`. */
  predicate Clean(pairs: seq<Pair>, wanted: string) {
    && (forall i :: 0 <= i < |pairs| ==> pairs[i].key.CborText?)
    && (forall i, j :: 0 <= i < j < |pairs| ==> pairs[i].key != pairs[j].key)
    && (forall i :: 0 <= i < |pairs| && IsPrefix(pairs[i].key.text, wanted) ==> pairs[i].key.text == wanted)
  }

  lemma {:induction false} MapGetAt(pairs: seq<Pair>, wanted: string, i: nat)
    requires i < |pairs| && IsText(pairs[i].key) && TextOf(pairs[i].key) == wanted
    requires forall j :: 0 <= j < i ==> !(IsText(pairs[j].key) && TextOf(pairs[j].key) == wanted)
    ensures MapGet(pairs, wanted) == Some(pairs[i].value)
  {
    if i > 0 {
      MapGetAt(pairs[1..], wanted, i - 1);
    }
  }

  lemma {:induction false} MapGetNone(pairs: seq<Pair>, wanted: string)
    requires forall j :: 0 <= j < |pairs| ==> !(IsText(pairs[j].key) && TextOf(pairs[j].key) == wanted)
    ensures MapGet(pairs, wanted) == None
  {
    if pairs != [] {
      MapGetNone(pairs[1..], wanted);
    }
  }

  lemma {:induction false} LastMatchAt(pairs: seq<Pair>, wanted: string, taken: Option<string>, i: nat)
    requires i < |pairs| && Matches(pairs[i].key, wanted) && (taken.Some? ==> !Matches(pairs[i].key, taken.value))
    requires forall j :: i < j < |pairs| ==> !Matches(pairs[j].key, wanted)
    ensures LastMatch(pairs, wanted, taken) == Some(pairs[i].value)
  {
    if i < |pairs| - 1 {
      LastMatchAt(pairs[..|pairs| - 1], wanted, taken, i);
    }
  }

  lemma {:induction false} LastMatchNone(pairs: seq<Pair>, wanted: string, taken: Option<string>)
    requires forall j :: 0 <= j < |pairs| ==> !Matches(pairs[j].key, wanted)
    ensures LastMatch(pairs, wanted, taken) == None
  {
    if pairs != [] {
      LastMatchNone(pairs[..|pairs| - 1], wanted, taken);
    }
  }

  /** On a clean map the last-match prefix scan finds what the first-match exact lookup finds. */
  lemma ScanIsLookup(pairs: seq<Pair>, wanted: string, taken: Option<string>)
    requires Clean(pairs, wanted)
    requires taken.Some? ==> !IsPrefix(wanted, taken.value)
    ensures LastMatch(pairs, wanted, taken) == MapGet(pairs, wanted)
  {
    if i :| 0 <= i < |pairs| && pairs[i].key.text == wanted {
      assert pairs[i].key == CborText(wanted) && IsPrefix(wanted, wanted);
      MapGetAt(pairs, wanted, i);
      LastMatchAt(pairs, wanted, taken, i);
    } else {
      MapGetNone(pairs, wanted);
      LastMatchNone(pairs, wanted, taken);
    }
  }

  /** Where the two lookups come from, as positions. */
  ghost predicate IsFirstExact(pairs: seq<Pair>, wanted: string, i: nat) {
    i < |pairs| && IsText(pairs[i].key) && TextOf(pairs[i].key) == wanted
    && forall j :: 0 <= j < i ==> !(IsText(pairs[j].key) && TextOf(pairs[j].key) == wanted)
  }

  ghost predicate IsLastMatch(pairs: seq<Pair>, wanted: string, i: nat) {
    i < |pairs| && Matches(pairs[i].key, wanted) && forall j :: i < j < |pairs| ==> !Matches(pairs[j].key, wanted)
  }

  /** Nothing that matches comes after the first exact key, and nothing matches if there is none. */
  ghost predicate NothingShadows(pairs: seq<Pair>, wanted: string) {
    forall j: nat :: j < |pairs| && Matches(pairs[j].key, wanted) ==> ExactFrom(pairs, wanted, j)
  }

  ghost predicate ExactFrom(pairs: seq<Pair>, wanted: string, j: nat) {
    exists i: nat :: j <= i && IsFirstExact(pairs, wanted, i)
  }

  predicate SameKeys(a: seq<Pair>, b: seq<Pair>) {
    |a| == |b| && forall i :: 0 <= i < |a| ==> a[i].key == b[i].key
  }

  /** In general, the keys of a map make the scan find what the lookup finds, whatever the values are, exactly
      when no other matching key follows the exact one. */
  lemma ScanVersusLookup(pairs: seq<Pair>, wanted: string)
    ensures (forall qs: seq<Pair> :: SameKeys(pairs, qs) ==> LastMatch(qs, wanted, None) == MapGet(qs, wanted))
            <==> NothingShadows(pairs, wanted)
  {
    if NothingShadows(pairs, wanted) {
      forall qs: seq<Pair> | SameKeys(pairs, qs) ensures LastMatch(qs, wanted, None) == MapGet(qs, wanted) {
        UnshadowedAgree(pairs, qs, wanted);
      }
    } else {
      var j: nat :| j < |pairs| && Matches(pairs[j].key, wanted) && !ExactFrom(pairs, wanted, j);
      var last := LastFrom(pairs, wanted, j);
      var qs := seq(|pairs|, k requires 0 <= k < |pairs| => Pair(pairs[k].key, BoolItem(k == last)));
      assert SameKeys(pairs, qs);
      LastMatchAt(qs, wanted, None, last);
      if MapGet(qs, wanted).Some? {
        var k := FirstExact(qs, wanted);
        assert IsFirstExact(pairs, wanted, k);
      }
    }
  }

  lemma UnshadowedAgree(pairs: seq<Pair>, qs: seq<Pair>, wanted: string)
    requires NothingShadows(pairs, wanted) && SameKeys(pairs, qs)
    ensures LastMatch(qs, wanted, None) == MapGet(qs, wanted)
  {
    if j: nat :| j < |qs| && Matches(qs[j].key, wanted) {
      assert Matches(pairs[j].key, wanted);
      var last := LastFrom(pairs, wanted, j);
      assert ExactFrom(pairs, wanted, last);
      var i: nat :| last <= i && IsFirstExact(pairs, wanted, i);
      assert Matches(pairs[i].key, wanted);
      MapGetAt(qs, wanted, i);
      LastMatchAt(qs, wanted, None, i);
    } else {
      MapGetNone(qs, wanted);
      LastMatchNone(qs, wanted, None);
    }
  }

  lemma {:induction false} FirstExact(pairs: seq<Pair>, wanted: string) returns (i: nat)
    requires MapGet(pairs, wanted).Some?
    ensures IsFirstExact(pairs, wanted, i) && MapGet(pairs, wanted) == Some(pairs[i].value)
  {
    if IsText(pairs[0].key) && TextOf(pairs[0].key) == wanted {
      i := 0;
    } else {
      var k := FirstExact(pairs[1..], wanted);
      i := k + 1;
    }
  }

  lemma {:induction false} LastFrom(pairs: seq<Pair>, wanted: string, j: nat) returns (i: nat)
    requires j < |pairs| && Matches(pairs[j].key, wanted)
    ensures j <= i && IsLastMatch(pairs, wanted, i)
    decreases |pairs| - j
  {
    if k :| j < k < |pairs| && Matches(pairs[k].key, wanted) {
      i := LastFrom(pairs, wanted, k);
    } else {
      i := j;
    }
  }
}
