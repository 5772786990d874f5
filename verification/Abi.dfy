/** Solidity types, their canonical text, and their encoding as section "Formal Specification of the
    Encoding" of the Solidity Contract ABI Specification defines it. Independent of the parser in Selector. */
module Abi {
  import opened Decimal

  type byte = n: int | 0 <= n < 256

  datatype AbiType =
    | UInt(bits: nat)
    | SInt(bits: nat)
    | Address
    | Bool
    | Function
    | Fixed(bits: nat, decimals: nat)
    | UFixed(bits: nat, decimals: nat)
    | FixedBytes(size: nat)
    | Bytes
    | String
    | DynArray(elem: AbiType)
    | FixedArray(elem: AbiType, count: nat)
    | Tuple(comps: seq<AbiType>)

  // ---- Canonical text ----

  function Print(t: AbiType): string {
    match t
    case UInt(m) => "uint" + Dec(m)
    case SInt(m) => "int" + Dec(m)
    case Address => "address"
    case Bool => "bool"
    case Function => "function"
    case Fixed(m, n) => "fixed" + Dec(m) + "x" + Dec(n)
    case UFixed(m, n) => "ufixed" + Dec(m) + "x" + Dec(n)
    case FixedBytes(m) => "bytes" + Dec(m)
    case Bytes => "bytes"
    case String => "string"
    case DynArray(e) => Print(e) + "[" + "]"
    case FixedArray(e, k) => Print(e) + "[" + (Dec(k) + "]")
    case Tuple(ts) => "(" + PrintList(ts) + ")"
  }

  /** The types' texts joined by commas. */
  function PrintList(ts: seq<AbiType>): string {
    if ts == [] then ""
    else if |ts| == 1 then Print(ts[0])
    else Print(ts[0]) + "," + PrintList(ts[1..])
  }

  function PrintEach(ts: seq<AbiType>): (r: seq<string>)
    ensures |r| == |ts|
  {
    if ts == [] then [] else [Print(ts[0])] + PrintEach(ts[1..])
  }

  function Signature(name: string, ts: seq<AbiType>): string {
    name + "(" + PrintList(ts) + ")"
  }

  // ---- Static layout ----

  predicate IsDynamic(t: AbiType) {
    match t
    case Bytes => true
    case String => true
    case DynArray(_) => true
    case FixedArray(e, _) => IsDynamic(e)
    case Tuple(ts) => AnyDynamic(ts)
    case _ => false
  }

  predicate AnyDynamic(ts: seq<AbiType>) {
    ts != [] && (IsDynamic(ts[0]) || AnyDynamic(ts[1..]))
  }

  /** The 32-byte words a type takes in the head: its size when static, one offset word when dynamic. */
  function HeadSize(t: AbiType): nat {
    if IsDynamic(t) then 1
    else
      match t
      case FixedArray(e, k) => HeadSize(e) * k
      case Tuple(ts) => HeadSizes(ts)
      case _ => 1
  }

  function HeadSizes(ts: seq<AbiType>): nat {
    if ts == [] then 0 else HeadSize(ts[0]) + HeadSizes(ts[1..])
  }

  // ---- Values and their encoding ----

  datatype Value =
    | Num(n: int)                // integers, addresses, bools (0 or 1), fixed-point numbers times 10^decimals
    | Blob(data: seq<byte>)      // byte strings, UTF-8 strings, function pointers
    | Items(vs: seq<Value>)      // arrays and tuples

  predicate HasType(v: Value, t: AbiType)
    decreases v
  {
    match t
    case UInt(m) => v.Num? && 0 <= v.n < Pow2(m)
    case SInt(m) => v.Num? && 0 <= 2 * v.n + Pow2(m) < 2 * Pow2(m)
    case Address => v.Num? && 0 <= v.n < Pow2(160)
    case Bool => v.Num? && 0 <= v.n < 2
    case Function => v.Blob? && |v.data| == 24
    case Fixed(m, _) => v.Num? && 0 <= 2 * v.n + Pow2(m) < 2 * Pow2(m)
    case UFixed(m, _) => v.Num? && 0 <= v.n < Pow2(m)
    case FixedBytes(m) => v.Blob? && |v.data| == m && 1 <= m <= 32
    case Bytes => v.Blob?
    case String => v.Blob?
    case DynArray(e) => v.Items? && forall i :: 0 <= i < |v.vs| ==> HasType(v.vs[i], e)
    case FixedArray(e, k) => v.Items? && |v.vs| == k && forall i :: 0 <= i < k ==> HasType(v.vs[i], e)
    case Tuple(ts) => v.Items? && HaveTypes(v.vs, ts)
  }

  predicate HaveTypes(vs: seq<Value>, ts: seq<AbiType>)
    decreases vs
  {
    |vs| == |ts| && forall i :: 0 <= i < |vs| ==> HasType(vs[i], ts[i])
  }

  /** n modulo 256^k in k bytes, big end first; a negative n comes out in two's complement. */
  function BigEndian(n: int, k: nat): (r: seq<byte>)
    ensures |r| == k
    decreases k
  {
    if k == 0 then [] else BigEndian(n / 256, k - 1) + [n % 256]
  }

  /** data followed by zero bytes up to a multiple of 32. */
  function PadRight(data: seq<byte>): (r: seq<byte>)
    ensures |r| % 32 == 0 && |data| <= |r| < |data| + 32 && data <= r
  {
    PadLength(|data|);
    data + seq((32 - |data| % 32) % 32, i => 0)
  }

  lemma PadLength(n: nat)
    ensures 0 <= (32 - n % 32) % 32 < 32 && (n + (32 - n % 32) % 32) % 32 == 0
  {
    var q, m := n / 32, n % 32;
    assert n == 32 * q + m;
    assert (32 - m) % 32 == if m == 0 then 0 else 32 - m;
    assert n + (32 - m) % 32 == 32 * if m == 0 then q else q + 1;
  }

  function Repeat(t: AbiType, k: nat): (ts: seq<AbiType>)
    ensures |ts| == k && forall i :: 0 <= i < k ==> ts[i] == t
  {
    seq(k, i => t)
  }

  /** enc(v) for a value of type t. */
  function Enc(v: Value, t: AbiType): seq<byte>
    requires HasType(v, t)
    decreases v
  {
    match t
    case Function => PadRight(v.data)
    case FixedBytes(m) => PadRight(v.data)
    case Bytes => BigEndian(|v.data|, 32) + PadRight(v.data)
    case String => BigEndian(|v.data|, 32) + PadRight(v.data)
    case DynArray(e) => BigEndian(|v.vs|, 32) + EncTuple(v.vs, Repeat(e, |v.vs|))
    case FixedArray(e, k) => EncTuple(v.vs, Repeat(e, k))
    case Tuple(ts) => EncTuple(v.vs, ts)
    case _ => BigEndian(v.n, 32)
  }

  /** head(1) ... head(k) tail(1) ... tail(k). */
  function EncTuple(vs: seq<Value>, ts: seq<AbiType>): seq<byte>
    requires HaveTypes(vs, ts)
    decreases vs, 2
  {
    Heads(vs, ts, HeadsLen(vs, ts)) + Tails(vs, ts)
  }

  /** The heads, where offset is the length of all heads and of the tails before the first value. */
  function Heads(vs: seq<Value>, ts: seq<AbiType>, offset: nat): seq<byte>
    requires HaveTypes(vs, ts)
    decreases vs, 1
  {
    if vs == [] then []
    else if IsDynamic(ts[0]) then
      BigEndian(offset, 32) + Heads(vs[1..], ts[1..], offset + |Enc(vs[0], ts[0])|)
    else Enc(vs[0], ts[0]) + Heads(vs[1..], ts[1..], offset)
  }

  function HeadsLen(vs: seq<Value>, ts: seq<AbiType>): nat
    requires HaveTypes(vs, ts)
    decreases vs, 1
  {
    if vs == [] then 0
    else (if IsDynamic(ts[0]) then 32 else |Enc(vs[0], ts[0])|) + HeadsLen(vs[1..], ts[1..])
  }

  function Tails(vs: seq<Value>, ts: seq<AbiType>): seq<byte>
    requires HaveTypes(vs, ts)
    decreases vs, 1
  {
    if vs == [] then []
    else (if IsDynamic(ts[0]) then Enc(vs[0], ts[0]) else []) + Tails(vs[1..], ts[1..])
  }

  // ---- Lengths of encodings ----

  lemma {:induction false} RepeatSizes(t: AbiType, k: nat)
    ensures HeadSizes(Repeat(t, k)) == HeadSize(t) * k
    ensures AnyDynamic(Repeat(t, k)) ==> IsDynamic(t)
  {
    if k > 0 {
      RepeatSizes(t, k - 1);
      assert Repeat(t, k)[1..] == Repeat(t, k - 1);
      assert HeadSize(t) * k == HeadSize(t) + HeadSize(t) * (k - 1);
    }
  }

  /** A static type's encoding is exactly as long as its head. */
  lemma {:induction false} EncLength(v: Value, t: AbiType)
    requires HasType(v, t)
    ensures !IsDynamic(t) ==> |Enc(v, t)| == 32 * HeadSize(t)
    decreases v, 1
  {
    match t
    case DynArray(e) =>
    case FixedArray(e, k) =>
      EncTupleLength(v.vs, Repeat(e, k));
      RepeatSizes(e, k);
    case Tuple(ts) =>
      EncTupleLength(v.vs, ts);
    case _ =>
  }

  /** An argument list's encoding has at least its head words, and no more when all types are static. */
  lemma {:induction false} EncTupleLength(vs: seq<Value>, ts: seq<AbiType>)
    requires HaveTypes(vs, ts)
    ensures |EncTuple(vs, ts)| >= 32 * HeadSizes(ts)
    ensures !AnyDynamic(ts) ==> |EncTuple(vs, ts)| == 32 * HeadSizes(ts)
    decreases vs, 2
  {
    HeadsLength(vs, ts, HeadsLen(vs, ts));
  }

  lemma {:induction false} HeadsLength(vs: seq<Value>, ts: seq<AbiType>, offset: nat)
    requires HaveTypes(vs, ts)
    ensures |Heads(vs, ts, offset)| == HeadsLen(vs, ts) == 32 * HeadSizes(ts)
    ensures !AnyDynamic(ts) ==> Tails(vs, ts) == []
    decreases vs, 1
  {
    if vs != [] {
      EncLength(vs[0], ts[0]);
      var offset' := if IsDynamic(ts[0]) then offset + |Enc(vs[0], ts[0])| else offset;
      HeadsLength(vs[1..], ts[1..], offset');
    }
  }
}
