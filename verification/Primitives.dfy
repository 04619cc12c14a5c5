// Encoding and decoding of single fields (set_struct_primitive and
// get_struct_primitive), and exactly which values survive the round trip.
module Primitives {
  import opened ByteMemory
  import opened PyValues

  /** `NoWrite` leaves the field alone; `PackError` is a raised exception. */
  datatype Packed = Write(bytes: Bytes) | NoWrite | PackError

  datatype Unpacked = Value(value: PyValue) | UnpackError

  /** The type names the encoder and the decoder tell apart. */
  datatype Kind = KUInt | KInt | KULong | KLong | KBool | KPtr | KChar | KUChar | KUShort | KShort
                | KULongLong | KLongLong | KUnknown | KOther

  function KindOf(basicType: string): Kind {
    match basicType
    case "unsigned int" => KUInt
    case "int" => KInt
    case "unsigned long" => KULong
    case "long" => KLong
    case "bool" => KBool
    case "PTR" => KPtr
    case "char" => KChar
    case "unsigned char" => KUChar
    case "unsigned short" => KUShort
    case "short" => KShort
    case "unsigned long long" => KULongLong
    case "long long" => KLongLong
    case "unknown" => KUnknown
    case _ => KOther
  }

  // ---- struct.pack ----

  function PackUnsigned(n: int, size: nat): Packed {
    if 0 <= n < Pow256(size) then Write(Le(n, size)) else PackError
  }

  predicate FitsSigned(n: int, size: nat) {
    0 <= 2 * n + Pow256(size) < 2 * Pow256(size)
  }

  function PackSigned(n: int, size: nat): Packed {
    var w := Pow256(size);
    if FitsSigned(n, size) then Write(Le(if n < 0 then n + w else n, size)) else PackError
  }

  function PackInt(v: PyValue, size: nat, signed: bool): Packed {
    if !IsInt(v) then PackError
    else if signed then PackSigned(Num(v), size) else PackUnsigned(Num(v), size)
  }

  /** Python's truth value. */
  function Truth(v: PyValue): bool {
    match v
    case PyInt(n) => n != 0
    case PyBool(b) => b
    case PyStr(s) => s != ""
    case PyBytes(r) => r != []
    case PyNone => false
    case PyList(l) => l != []
    case _ => true
  }

  predicate Ascii(s: string) {
    forall k | 0 <= k < |s| :: s[k] as int < 128
  }

  function Nuls(n: nat): (s: string)
    ensures |s| == n && forall k | 0 <= k < n :: s[k] == 0 as char
  {
    seq(n, _ => 0 as char)
  }

  /** `ljust` pads short strings and keeps long ones. */
  function Ljust(s: string, size: nat): string {
    if |s| < size then s + Nuls(size - |s|) else s
  }

  function AsciiBytes(s: string): (b: Bytes)
    requires Ascii(s)
    ensures |b| == |s| && forall k | 0 <= k < |s| :: b[k] == s[k] as int
  {
    seq(|s|, k requires 0 <= k < |s| => s[k] as int)
  }

  function Encode(kind: Kind, size: nat, pointerBits: nat, data: PyValue): Packed {
    match kind
    case KUInt => PackInt(data, 4, false)
    case KInt => PackInt(data, 4, true)
    case KBool => Write([if Truth(data) then 1 else 0])
    case KPtr => if data.PyNone? then NoWrite else PackInt(data, if pointerBits == 32 then 4 else 8, false)
    case KChar =>
      if data.PyStr? && Ascii(data.s) then Write(AsciiBytes(Ljust(data.s, size))) else PackError
    case KUChar => PackInt(data, 1, false)
    case KUShort => PackInt(data, 2, false)
    case KShort => PackInt(data, 2, true)
    case KULongLong => PackInt(data, 8, false)
    case KLongLong => PackInt(data, 8, true)
    case KUnknown => NoWrite
    case _ => PackError
  }

  // ---- Reading ----

  /** A C read of `size` bytes as a signed number. */
  function Signed(b: Bytes, size: nat): int
    requires size <= |b|
  {
    var u := FromLe(b[..size]);
    if 2 * u < Pow256(size) then u else u - Pow256(size)
  }

  function StripNuls(s: string): string {
    if s != "" && s[|s| - 1] == 0 as char then StripNuls(s[..|s| - 1]) else s
  }

  predicate AsciiOnly(b: Bytes) {
    forall k | 0 <= k < |b| :: b[k] < 128
  }

  function AsciiString(b: Bytes): (s: string)
    requires AsciiOnly(b)
    ensures |s| == |b| && forall k | 0 <= k < |s| :: s[k] as int == b[k]
  {
    seq(|b|, k requires 0 <= k < |b| => b[k] as char)
  }

  /** `data` is the value the field has before it is overwritten; only its type counts.
      Text beyond ASCII is kept as bytes here: the UTF-8 decoder is not modelled. */
  function Decode(kind: Kind, pointerBits: nat, mem: Bytes, data: PyValue): Unpacked {
    if mem == [] then Value(PyNone) else
    match kind
    case KPtr =>
      if pointerBits == 32 then
        if |mem| < 4 then UnpackError else Value(PyInt(FromLe(mem[..4])))
      else if |mem| < 8 then UnpackError else Value(PyInt(Signed(mem, 8)))
    case KChar =>
      if |mem| > 1 then
        if AsciiOnly(mem) then Value(PyStr(StripNuls(AsciiString(mem)))) else Value(PyBytes(mem))
      else if IsInt(data) then Value(PyInt(mem[0])) else UnpackError
    case KBool => Value(PyBool(mem[0] != 0))
    case KUnknown => Value(PyNone)
    case KUChar => if IsInt(data) then Value(PyInt(mem[0])) else UnpackError
    case KUShort => if IsInt(data) && |mem| >= 2 then Value(PyInt(FromLe(mem[..2]))) else UnpackError
    case KShort => if IsInt(data) && |mem| >= 2 then Value(PyInt(FromLe(mem[..2]))) else UnpackError
    case KULongLong => if IsInt(data) && |mem| >= 8 then Value(PyInt(Signed(mem, 8))) else UnpackError
    case KLongLong => if IsInt(data) && |mem| >= 8 then Value(PyInt(Signed(mem, 8))) else UnpackError
    case KOther => UnpackError
    case _ => if IsInt(data) && |mem| >= 4 then Value(PyInt(Signed(mem, 4))) else UnpackError
  }

  // ---- The round trip ----

  /** The sizes C gives the types the encoder knows; character fields are arrays. */
  predicate StandardSize(kind: Kind, size: nat, pointerBits: nat) {
    match kind
    case KUInt => size == 4
    case KInt => size == 4
    case KBool => size == 1
    case KPtr => (pointerBits == 32 && size == 4) || (pointerBits == 64 && size == 8)
    case KChar => size > 1
    case KUChar => size == 1
    case KUShort => size == 2
    case KShort => size == 2
    case KULongLong => size == 8
    case KLongLong => size == 8
    case _ => false
  }

  /** The values that come back: all of `int`, `long long`, `bool`, `unsigned char`,
      `unsigned short` and 32-bit pointers; the others only with their sign bit clear;
      ASCII text that fits and does not end in NUL. */
  predicate InRange(kind: Kind, size: nat, pointerBits: nat, data: PyValue) {
    if kind == KChar then
      data.PyStr? && Ascii(data.s) && |data.s| <= size && (data.s == "" || data.s[|data.s| - 1] != 0 as char)
    else
      IsInt(data) &&
      var n := Num(data);
      match kind
      case KUInt => 0 <= n < 0x8000_0000
      case KInt => -0x8000_0000 <= n < 0x8000_0000
      case KBool => 0 <= n <= 1
      case KPtr => 0 <= n < if pointerBits == 32 then 0x1_0000_0000 else 0x8000_0000_0000_0000
      case KUChar => 0 <= n < 0x100
      case KUShort => 0 <= n < 0x1_0000
      case KShort => 0 <= n < 0x8000
      case KULongLong => 0 <= n < 0x8000_0000_0000_0000
      case KLongLong => -0x8000_0000_0000_0000 <= n < 0x8000_0000_0000_0000
      case _ => false
  }

  /** The field is written in full and reads back equal. */
  predicate RoundTrips(kind: Kind, size: nat, pointerBits: nat, data: PyValue, before: PyValue) {
    var p := Encode(kind, size, pointerBits, data);
    && p.Write?
    && |p.bytes| == size
    && var u := Decode(kind, pointerBits, p.bytes, before);
       u.Value? && PyEqual(data, u.value)
  }

  lemma Widths()
    ensures Pow256(1) == 0x100 && Pow256(2) == 0x1_0000
    ensures Pow256(4) == 0x1_0000_0000 && Pow256(8) == 0x1_0000_0000_0000_0000
  {
    assert Pow256(0) == 1;
    assert Pow256(1) == 256;
    assert Pow256(2) == 256 * 256;
    assert Pow256(3) == 256 * 256 * 256;
    assert Pow256(5) == 256 * Pow256(4);
    assert Pow256(6) == 256 * Pow256(5);
    assert Pow256(7) == 256 * Pow256(6);
  }

  lemma UnsignedBack(n: nat, size: nat)
    requires n < Pow256(size)
    ensures FromLe(Le(n, size)[..size]) == n
    ensures Signed(Le(n, size), size) == n <==> 2 * n < Pow256(size)
  {
    LeRoundTrip(n, size);
    assert Le(n, size)[..size] == Le(n, size);
  }

  lemma SignedBack(n: int, size: nat)
    requires FitsSigned(n, size)
    ensures PackSigned(n, size).Write?
    ensures Signed(PackSigned(n, size).bytes, size) == n
    ensures FromLe(PackSigned(n, size).bytes[..size]) == n <==> n >= 0
  {
    LeRoundTrip(if n < 0 then n + Pow256(size) else n, size);
    var b := PackSigned(n, size).bytes;
    assert b[..size] == b;
  }

  lemma {:induction false} StripPadding(s: string, n: nat)
    ensures StripNuls(s + Nuls(n)) == StripNuls(s)
    decreases n
  {
    if n == 0 {
      assert s + Nuls(0) == s;
    } else {
      assert (s + Nuls(n))[..|s| + n - 1] == s + Nuls(n - 1);
      StripPadding(s, n - 1);
    }
  }

  lemma {:induction false} StripKeeps(s: string)
    ensures |StripNuls(s)| <= |s|
    ensures StripNuls(s) == s <==> s == "" || s[|s| - 1] != 0 as char
  {
    if s != "" && s[|s| - 1] == 0 as char { StripKeeps(s[..|s| - 1]); }
  }

  lemma TextBack(s: string, size: nat)
    requires Ascii(s)
    ensures Ascii(Ljust(s, size)) && AsciiOnly(AsciiBytes(Ljust(s, size)))
    ensures AsciiString(AsciiBytes(Ljust(s, size))) == Ljust(s, size)
    ensures StripNuls(Ljust(s, size)) == StripNuls(s)
  {
    if |s| < size { StripPadding(s, size - |s|); }
  }

  lemma TextRoundTrip(size: nat, pointerBits: nat, data: PyValue, before: PyValue)
    requires size > 1
    ensures RoundTrips(KChar, size, pointerBits, data, before) <==> InRange(KChar, size, pointerBits, data)
  {
    if data.PyStr? && Ascii(data.s) {
      var s := data.s;
      TextBack(s, size);
      var bytes := AsciiBytes(Ljust(s, size));
      assert Encode(KChar, size, pointerBits, data) == Write(bytes);
      if |s| <= size {
        assert Decode(KChar, pointerBits, bytes, before) == Value(PyStr(StripNuls(s)));
        StripKeeps(s);
      }
    }
  }

  lemma SignedRoundTrip(kind: Kind, size: nat, pointerBits: nat, data: PyValue, before: PyValue)
    requires StandardSize(kind, size, pointerBits) && kind in {KInt, KShort, KLongLong}
    requires IsInt(data) && IsInt(before)
    ensures RoundTrips(kind, size, pointerBits, data, before) <==> InRange(kind, size, pointerBits, data)
  {
    hide Pow256, FromLe, Le;
    Widths();
    var n := Num(data);
    if FitsSigned(n, size) { SignedBack(n, size); }
  }

  lemma WideRoundTrip(kind: Kind, size: nat, pointerBits: nat, data: PyValue, before: PyValue)
    requires StandardSize(kind, size, pointerBits) && kind in {KUInt, KULongLong}
    requires IsInt(data) && IsInt(before)
    ensures RoundTrips(kind, size, pointerBits, data, before) <==> InRange(kind, size, pointerBits, data)
  {
    hide Pow256, FromLe, Le;
    Widths();
    var n := Num(data);
    if 0 <= n < Pow256(size) { UnsignedBack(n, size); }
  }

  lemma NarrowRoundTrip(kind: Kind, size: nat, pointerBits: nat, data: PyValue, before: PyValue)
    requires StandardSize(kind, size, pointerBits) && kind in {KBool, KUChar, KUShort}
    requires IsInt(data) && IsInt(before)
    ensures RoundTrips(kind, size, pointerBits, data, before) <==> InRange(kind, size, pointerBits, data)
  {
    Widths();
    var n := Num(data);
    if kind != KBool && 0 <= n < Pow256(size) {
      UnsignedBack(n, size);
      FirstByte(n, size);
    }
  }

  lemma PointerRoundTrip(size: nat, pointerBits: nat, data: PyValue, before: PyValue)
    requires StandardSize(KPtr, size, pointerBits) && IsInt(data)
    ensures RoundTrips(KPtr, size, pointerBits, data, before) <==> InRange(KPtr, size, pointerBits, data)
  {
    hide Pow256, FromLe, Le;
    Widths();
    var n := Num(data);
    assert Encode(KPtr, size, pointerBits, data) == PackUnsigned(n, size);
    if 0 <= n < Pow256(size) { PointerBack(n, size, pointerBits, before); }
  }

  lemma PointerBack(n: nat, size: nat, pointerBits: nat, before: PyValue)
    requires StandardSize(KPtr, size, pointerBits) && n < Pow256(size)
    ensures Decode(KPtr, pointerBits, Le(n, size), before) ==
            Value(PyInt(if pointerBits == 32 || 2 * n < Pow256(size) then n else n - Pow256(size)))
  {
    LeRoundTrip(n, size);
    assert Le(n, size)[..size] == Le(n, size);
  }

  lemma FirstByte(n: nat, size: nat)
    requires n < Pow256(size)
    ensures size == 1 ==> Le(n, size)[0] == n
  {
    Widths();
  }

  /** A field survives the trip through memory exactly when its value is in range. */
  lemma PrimitiveRoundTrip(kind: Kind, size: nat, pointerBits: nat, data: PyValue, before: PyValue)
    requires StandardSize(kind, size, pointerBits)
    requires kind == KChar || kind == KPtr || IsInt(before)
    requires IsInt(data) || data.PyStr?
    ensures RoundTrips(kind, size, pointerBits, data, before) <==> InRange(kind, size, pointerBits, data)
  {
    if kind == KChar {
      TextRoundTrip(size, pointerBits, data, before);
    } else if IsInt(data) {
      if kind in {KInt, KShort, KLongLong} {
        SignedRoundTrip(kind, size, pointerBits, data, before);
      } else if kind == KPtr {
        PointerRoundTrip(size, pointerBits, data, before);
      } else if kind in {KUInt, KULongLong} {
        WideRoundTrip(kind, size, pointerBits, data, before);
      } else {
        NarrowRoundTrip(kind, size, pointerBits, data, before);
      }
    }
  }

  // ---- The way back ----

  /** The bytes that decoding and encoding leave alone: a boolean is 0 or 1, text is ASCII,
      and what is not read as it is written has its sign bit clear. */
  predicate Canonical(kind: Kind, pointerBits: nat, b: Bytes)
    requires b != []
  {
    match kind
    case KBool => b[0] <= 1
    case KChar => AsciiOnly(b)
    case KPtr => pointerBits == 32 || 2 * FromLe(b) < Pow256(|b|)
    case KUInt => 2 * FromLe(b) < Pow256(|b|)
    case KULongLong => 2 * FromLe(b) < Pow256(|b|)
    case KShort => 2 * FromLe(b) < Pow256(|b|)
    case _ => true
  }

  /** What a field of this kind holds before it is read. */
  predicate Suits(kind: Kind, before: PyValue) {
    match kind
    case KPtr => before.PyPtr?
    case KChar => before.PyStr?
    case _ => IsInt(before)
  }

  /** Bytes come back from Python exactly if they are canonical; the value read is in range
      exactly then, except that every byte reads as a boolean. */
  lemma BytesRoundTrip(kind: Kind, size: nat, pointerBits: nat, b: Bytes, before: PyValue)
    requires StandardSize(kind, size, pointerBits) && |b| == size && Suits(kind, before)
    ensures b != [] && Decode(kind, pointerBits, b, before).Value?
    ensures var x := Decode(kind, pointerBits, b, before).value;
            && (if kind == KChar then x.PyStr? || x.PyBytes? else IsInt(x)) && (kind == KPtr ==> x.PyInt?)
            && (Encode(kind, size, pointerBits, x) == Write(b) <==> Canonical(kind, pointerBits, b))
            && (InRange(kind, size, pointerBits, x) <==> Canonical(kind, pointerBits, b) || kind == KBool)
  {
    Widths();
    if kind == KChar {
      TextBytesBack(b, pointerBits, before);
    } else if kind != KBool {
      NumberBytesBack(kind, size, pointerBits, b, before);
    }
  }

  lemma NumberBytesBack(kind: Kind, size: nat, pointerBits: nat, b: Bytes, before: PyValue)
    requires StandardSize(kind, size, pointerBits) && |b| == size && Suits(kind, before)
    requires kind != KChar && kind != KBool
    ensures b != [] && Decode(kind, pointerBits, b, before).Value?
    ensures var x := Decode(kind, pointerBits, b, before).value;
            && IsInt(x) && (kind == KPtr ==> x.PyInt?)
            && (Encode(kind, size, pointerBits, x) == Write(b) <==> Canonical(kind, pointerBits, b))
            && (InRange(kind, size, pointerBits, x) <==> Canonical(kind, pointerBits, b))
  {
    hide Pow256, FromLe, Le;
    Widths();
    OneByte(b);
    LeOfFromLe(b);
    assert b[..size] == b;
  }

  lemma OneByte(b: Bytes)
    ensures |b| == 1 ==> FromLe(b) == b[0]
    ensures FromLe(b) < Pow256(|b|)
  {
    FromLeBound(b);
    if |b| == 1 { assert b[1..] == []; }
  }

  lemma {:induction false} StripRestores(s: string)
    ensures |StripNuls(s)| <= |s| && Ljust(StripNuls(s), |s|) == s
  {
    if s != "" && s[|s| - 1] == 0 as char {
      var front := s[..|s| - 1];
      StripRestores(front);
      assert Nuls(|s| - |StripNuls(front)|) == Nuls(|front| - |StripNuls(front)|) + [0 as char];
      assert s == front + [0 as char];
    }
  }

  lemma TextBytesBack(b: Bytes, pointerBits: nat, before: PyValue)
    requires |b| > 1
    ensures Decode(KChar, pointerBits, b, before).Value?
    ensures var x := Decode(KChar, pointerBits, b, before).value;
            && (x.PyStr? || x.PyBytes?)
            && (Encode(KChar, |b|, pointerBits, x) == Write(b) <==> AsciiOnly(b))
            && (InRange(KChar, |b|, pointerBits, x) <==> AsciiOnly(b))
  {
    if AsciiOnly(b) {
      var s := AsciiString(b);
      StripRestores(s);
      StripIsPrefix(s);
      TextBack(StripNuls(s), |b|);
      StripKeeps(StripNuls(s));
      StripTwice(s);
      assert AsciiBytes(s) == b;
    }
  }

  lemma {:induction false} StripIsPrefix(s: string)
    ensures StripNuls(s) <= s
  {
    if s != "" && s[|s| - 1] == 0 as char { StripIsPrefix(s[..|s| - 1]); }
  }

  lemma {:induction false} StripTwice(s: string)
    ensures StripNuls(StripNuls(s)) == StripNuls(s)
  {
    if s != "" && s[|s| - 1] == 0 as char { StripTwice(s[..|s| - 1]); }
  }
}
