/** Decoded bencode values, as the crawler receives them from its decoder and
    hands them to its encoder. The byte-level encoding is not modelled. */
module Bencode {
  import opened Wrappers

  newtype byte = x: int | 0 <= x < 256
  type Bytes = seq<byte>

  /** A decoded bencode value. Dictionary keys are text, because the crawler
      looks them up with `str` keys; byte strings stay bytes. */
  datatype Value =
    | BStr(bytes: Bytes)
    | BInt(n: int)
    | BList(items: seq<Value>)
    | BDict(entries: map<string, Value>)

  /** Python can hash a byte string or an integer; a list or a dict used as a
      set member or a dict key raises TypeError. */
  predicate Hashable(v: Value) {
    v.BStr? || v.BInt?
  }

  /** Python truthiness: empty strings, zero, empty lists and empty dicts are false. */
  predicate Truthy(v: Value) {
    match v
    case BStr(b) => b != []
    case BInt(n) => n != 0
    case BList(xs) => xs != []
    case BDict(m) => m != map[]
  }

  /** `d.get(k, default)` */
  function GetOr(d: map<string, Value>, k: string, default: Value): Value {
    if k in d then d[k] else default
  }

  predicate IsContinuation(b: byte) {
    0x80 <= b <= 0xBF
  }

  /** Well-formed UTF-8 as in section 4 of RFC 3629 (no overlong forms, no
      surrogates, nothing above U+10FFFF): exactly the byte strings that
      Python's `str(b, "utf-8")` decodes without raising. */
  predicate ValidUtf8(b: Bytes)
    decreases |b|
  {
    if b == [] then true
    else if b[0] < 0x80 then ValidUtf8(b[1..])
    else if 0xC2 <= b[0] <= 0xDF then
      |b| >= 2 && IsContinuation(b[1]) && ValidUtf8(b[2..])
    else if 0xE0 <= b[0] <= 0xEF then
      && |b| >= 3
      && (if b[0] == 0xE0 then 0xA0 <= b[1] <= 0xBF
          else if b[0] == 0xED then 0x80 <= b[1] <= 0x9F
          else IsContinuation(b[1]))
      && IsContinuation(b[2])
      && ValidUtf8(b[3..])
    else if 0xF0 <= b[0] <= 0xF4 then
      && |b| >= 4
      && (if b[0] == 0xF0 then 0x90 <= b[1] <= 0xBF
          else if b[0] == 0xF4 then 0x80 <= b[1] <= 0x8F
          else IsContinuation(b[1]))
      && IsContinuation(b[2])
      && IsContinuation(b[3])
      && ValidUtf8(b[4..])
    else false
  }

  /** Every byte below 0x80 is a character of its own in UTF-8. */
  lemma {:induction false} AsciiIsValidUtf8(b: Bytes)
    requires forall i :: 0 <= i < |b| ==> b[i] < 0x80
    ensures ValidUtf8(b)
    decreases |b|
  {
    if b != [] {
      AsciiIsValidUtf8(b[1..]);
    }
  }

  /** `str(v, "utf-8")`: the bytes of `v` when it is a byte string holding
      valid UTF-8, None where Python raises (TypeError, UnicodeDecodeError). */
  function Decode(v: Value): Option<Bytes> {
    if v.BStr? && ValidUtf8(v.bytes) then Some(v.bytes) else None
  }

  /** A byte string of ASCII characters decodes to itself: this is how the
      protocol's tags ("r", "q", "e") and query names reach the handlers. */
  lemma AsciiDecodes(b: Bytes)
    requires forall i :: 0 <= i < |b| ==> b[i] < 0x80
    ensures Decode(BStr(b)) == Some(b)
  {
    AsciiIsValidUtf8(b);
  }

  /** `str(b, "utf-8")` raises on any byte string that does not start a
      character: one opening with a continuation byte, with 0xC0 or 0xC1
      (which could only start an overlong form), or with a byte above 0xF4
      (beyond U+10FFFF), and one that is cut off after a lead byte. */
  lemma MalformedDoesNotDecode(b: Bytes)
    requires b != []
    requires || IsContinuation(b[0]) || b[0] == 0xC0 || b[0] == 0xC1 || b[0] >= 0xF5
             || (b[0] >= 0xC2 && |b| == 1)
    ensures Decode(BStr(b)).None?
  {
  }
}
