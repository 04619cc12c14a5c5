// Single fields, type name by type name: which numbers and texts a field of each C type
// takes, what its bytes are then, and what is read from given bytes.
module TypedLeaves {
  import opened Common
  import opened ByteMemory
  import opened DebugTypes
  import opened TypePaths
  import opened Spelling
  import opened Lookup
  import opened PyValues
  import opened Primitives
  import opened Marshaller
  import opened Upload

  /** The numbers from `low` up to `high`, in `width` bytes. */
  datatype Format = Format(width: nat, low: int, high: int)

  /** The numbers the writer takes. It knows no `long`. */
  function WrittenFormat(name: string): Option<Format> {
    match name
    case "unsigned char" => Some(Format(1, 0, 0x100))
    case "unsigned short" => Some(Format(2, 0, 0x1_0000))
    case "short" => Some(Format(2, -0x8000, 0x8000))
    case "unsigned int" => Some(Format(4, 0, 0x1_0000_0000))
    case "int" => Some(Format(4, -0x8000_0000, 0x8000_0000))
    case "unsigned long long" => Some(Format(8, 0, 0x1_0000_0000_0000_0000))
    case "long long" => Some(Format(8, -0x8000_0000_0000_0000, 0x8000_0000_0000_0000))
    case _ => None
  }

  /** The numbers the reader returns: `short` without its sign, `unsigned int` and
      `unsigned long long` with one, `long` as an `int`. */
  function ReadFormat(name: string): Option<Format> {
    match name
    case "unsigned char" => Some(Format(1, 0, 0x100))
    case "unsigned short" => Some(Format(2, 0, 0x1_0000))
    case "short" => Some(Format(2, 0, 0x1_0000))
    case "unsigned int" => Some(Format(4, -0x8000_0000, 0x8000_0000))
    case "int" => Some(Format(4, -0x8000_0000, 0x8000_0000))
    case "unsigned long" => Some(Format(4, -0x8000_0000, 0x8000_0000))
    case "long" => Some(Format(4, -0x8000_0000, 0x8000_0000))
    case "unsigned long long" => Some(Format(8, -0x8000_0000_0000_0000, 0x8000_0000_0000_0000))
    case "long long" => Some(Format(8, -0x8000_0000_0000_0000, 0x8000_0000_0000_0000))
    case _ => None
  }

  // ---- Writing ----

  /** A number in range becomes that many bytes, which stand for it, or if it is negative
      for it and 256^width. */
  predicate NumberPacked(f: Format, n: int, r: Packed) {
    if f.low <= n < f.high then
      r.Write? && |r.bytes| == f.width && FromLe(r.bytes) == if n < 0 then n + Pow256(f.width) else n
    else r.PackError?
  }

  /** ASCII text is written character by character and filled up with zeros. */
  predicate TextPacked(s: string, size: nat, r: Packed) {
    if forall k | 0 <= k < |s| :: s[k] < 128 as char then
      && r.Write? && |r.bytes| == Max(|s|, size)
      && forall k | 0 <= k < |r.bytes| :: r.bytes[k] == if k < |s| then s[k] as int else 0
    else r.PackError?
  }

  /** What writing value `v` to a field of type `t` comes to; `size` is the recorded size. */
  predicate PackedAs(t: DIType, size: nat, bits: nat, v: PyValue, r: Packed) {
    match t
    case Pointer(_, _) =>
      var f := if bits == 32 then Format(4, 0, 0x1_0000_0000) else Format(8, 0, 0x1_0000_0000_0000_0000);
      (match v
       case PyPtr(None, _) => r.NoWrite?
       case PyPtr(Some(n), _) => NumberPacked(f, n, r)
       case PyInt(n) => NumberPacked(f, n, r)
       case PyBool(b) => NumberPacked(f, if b then 1 else 0, r)
       case PyNone => r.NoWrite?
       case _ => r.PackError?)
    case Basic(name, _, _) => BasicPackedAs(name, size, v, r)
    case Array(e, _) => if Strip(e).Basic? then BasicPackedAs(Strip(e).name, size, v, r) else r.NoWrite?
    case _ => r.NoWrite?
  }

  predicate BasicPackedAs(name: string, size: nat, v: PyValue, r: Packed) {
    if name == "char" then
      if v.PyStr? then TextPacked(v.s, size, r) else r.PackError?
    else if name == "bool" then
      match v
      case PyInt(n) => r == Write([if n != 0 then 1 else 0])
      case PyBool(b) => r == Write([if b then 1 else 0])
      case PyStr(s) => r == Write([if |s| > 0 then 1 else 0])
      case PyBytes(b) => r == Write([if |b| > 0 then 1 else 0])
      case PyNone => r == Write([0])
      case PyList(l) => r == Write([if |l| > 0 then 1 else 0])
      case PyPtr(p, _) => r == Write([if p.Some? && p.value != 0 then 1 else 0])
      case PyObject(_) => r == Write([1])
    else if name == "unknown" then r.NoWrite?
    else
      match WrittenFormat(name)
      case None => name != "PTR" ==> r.PackError?
      case Some(f) =>
        match v
        case PyInt(n) => NumberPacked(f, n, r)
        case PyBool(b) => NumberPacked(f, if b then 1 else 0, r)
        case PyPtr(Some(n), _) => NumberPacked(f, n, r)
        case _ => r.PackError?
  }

  lemma UnsignedPacked(n: int, size: nat)
    ensures NumberPacked(Format(size, 0, Pow256(size)), n, PackUnsigned(n, size))
  {
    if 0 <= n < Pow256(size) {
      LeRoundTrip(n, size);
    }
  }

  lemma SignedPacked(n: int, size: nat, half: nat)
    requires 2 * half == Pow256(size)
    ensures NumberPacked(Format(size, 0 - half, half), n, PackSigned(n, size))
  {
    var w := Pow256(size);
    if 0 - half <= n < half {
      var u := if n < 0 then n + w else n;
      LeRoundTrip(u, size);
    }
  }

  lemma NumberFormats(n: int)
    ensures NumberPacked(Format(1, 0, 0x100), n, PackUnsigned(n, 1))
    ensures NumberPacked(Format(2, 0, 0x1_0000), n, PackUnsigned(n, 2))
    ensures NumberPacked(Format(2, -0x8000, 0x8000), n, PackSigned(n, 2))
    ensures NumberPacked(Format(4, 0, 0x1_0000_0000), n, PackUnsigned(n, 4))
    ensures NumberPacked(Format(4, -0x8000_0000, 0x8000_0000), n, PackSigned(n, 4))
    ensures NumberPacked(Format(8, 0, 0x1_0000_0000_0000_0000), n, PackUnsigned(n, 8))
    ensures NumberPacked(Format(8, -0x8000_0000_0000_0000, 0x8000_0000_0000_0000), n, PackSigned(n, 8))
  {
    hide NumberPacked, PackUnsigned, PackSigned, Pow256;
    Widths();
    UnsignedPacked(n, 1);
    UnsignedPacked(n, 2);
    UnsignedPacked(n, 4);
    UnsignedPacked(n, 8);
    SignedPacked(n, 2, 0x8000);
    SignedPacked(n, 4, 0x8000_0000);
    SignedPacked(n, 8, 0x8000_0000_0000_0000);
  }

  lemma BasicPacked(name: string, size: nat, bits: nat, v: PyValue)
    ensures BasicPackedAs(name, size, v, Encode(KindOf(name), size, bits, Payload(v)))
  {
    hide NumberPacked, PackUnsigned, PackSigned;
    match v
    case PyInt(n) => NumberFormats(n);
    case PyBool(b) => NumberFormats(if b then 1 else 0);
    case PyPtr(Some(n), _) => NumberFormats(n);
    case _ =>
  }

  lemma PointerPacked(t: DIType, size: nat, bits: nat, v: PyValue)
    requires t.Pointer?
    ensures PackedAs(t, size, bits, v, Encode(KPtr, size, bits, Payload(v)))
  {
    hide NumberPacked, PackUnsigned;
    match v
    case PyInt(n) => NumberFormats(n);
    case PyBool(b) => NumberFormats(if b then 1 else 0);
    case PyPtr(Some(n), _) => NumberFormats(n);
    case _ =>
  }

  /** For every C type and value: what writing a field of the type comes to. */
  lemma LeafPacked(t: DIType, bits: nat, l: Leaf)
    requires WellFormed(t) && ValidPath(t, l.path)
    ensures PackedAs(Strip(TypeAt(t, l.path)), RecordedSize(t, l.path), bits, l.value, EncodeLeaf(t, bits, l))
  {
    hide BasicPackedAs, NumberPacked, Encode, RecordedSize, ValidPath;
    var u, size := Strip(TypeAt(t, l.path)), RecordedSize(t, l.path);
    TypeAtWellFormed(t, l.path);
    StripFacts(TypeAt(t, l.path));
    match u
    case Basic(name, _, _) => BasicPacked(name, size, bits, l.value);
    case Array(e, _) =>
      NameOfElement(e);
      if Strip(e).Basic? {
        BasicPacked(Strip(e).name, size, bits, l.value);
      } else {
        UnknownPacked(size, bits, l.value);
      }
    case Pointer(_, _) => PointerPacked(u, size, bits, l.value);
    case _ => UnknownPacked(size, bits, l.value);
  }

  lemma UnknownPacked(size: nat, bits: nat, v: PyValue)
    ensures Encode(KindOf("unknown"), size, bits, Payload(v)) == NoWrite
  {
  }

  // ---- Reading ----

  /** The number read is what the bytes stand for, or that less 256^width: the one in
      range. */
  predicate NumberRead(f: Format, b: Bytes, x: PyValue) {
    && |b| >= f.width && x.PyInt? && f.low <= x.n < f.high
    && (x.n == FromLe(b[..f.width]) || x.n == FromLe(b[..f.width]) - Pow256(f.width))
  }

  /** Text up to its trailing zeros; bytes beyond ASCII stay bytes. */
  predicate TextRead(b: Bytes, x: PyValue) {
    if forall k | 0 <= k < |b| :: b[k] < 128 then
      && x.PyStr? && |x.s| <= |b|
      && (forall k | 0 <= k < |b| :: b[k] == if k < |x.s| then x.s[k] as int else 0)
      && (x.s != "" ==> x.s[|x.s| - 1] != 0 as char)
    else x == PyBytes(b)
  }

  /** What reading the bytes `b` of a field of type `t`, which held `v`, comes to. */
  predicate ReadAs(t: DIType, bits: nat, v: PyValue, b: Bytes, r: Unpacked) {
    if b == [] then r == Value(PyNone) else
    match t
    case Pointer(_, _) =>
      var f := if bits == 32 then Format(4, 0, 0x1_0000_0000)
               else Format(8, -0x8000_0000_0000_0000, 0x8000_0000_0000_0000);
      if |b| < f.width then r == UnpackError else r.Value? && NumberRead(f, b, r.value)
    case Basic(name, _, _) => BasicReadAs(name, v, b, r)
    case Array(e, _) => if Strip(e).Basic? then BasicReadAs(Strip(e).name, v, b, r) else r == Value(PyNone)
    case _ => r == Value(PyNone)
  }

  predicate BasicReadAs(name: string, v: PyValue, b: Bytes, r: Unpacked)
    requires b != []
  {
    if name == "char" && |b| > 1 then r.Value? && TextRead(b, r.value)
    else if name == "bool" then r == Value(PyBool(b[0] != 0))
    else if name == "unknown" then r == Value(PyNone)
    else
      match if name == "char" then Some(Format(1, 0, 0x100)) else ReadFormat(name)
      case None => name != "PTR" ==> r == UnpackError
      case Some(f) =>
        if (v.PyInt? || v.PyBool?) && |b| >= f.width then r.Value? && NumberRead(f, b, r.value) else r == UnpackError
  }

  lemma UnsignedRead(b: Bytes, n: nat)
    requires n <= |b|
    ensures NumberRead(Format(n, 0, Pow256(n)), b, PyInt(FromLe(b[..n])))
  {
    hide FromLe, Pow256;
    FromLeBound(b[..n]);
  }

  lemma SignedRead(b: Bytes, n: nat, half: nat)
    requires n <= |b| && 2 * half == Pow256(n)
    ensures NumberRead(Format(n, 0 - half, half), b, PyInt(Signed(b, n)))
  {
    hide FromLe, Pow256;
    FromLeBound(b[..n]);
  }

  lemma FirstByteRead(b: Bytes)
    requires b != []
    ensures NumberRead(Format(1, 0, 0x100), b, PyInt(b[0]))
  {
    assert b[..1] == [b[0]];
    OneByteNumber(b[0]);
  }

  lemma BasicRead(name: string, bits: nat, v: PyValue, b: Bytes)
    requires b != []
    ensures BasicReadAs(name, v, b, Decode(KindOf(name), bits, b, v))
  {
    if name in {"char", "bool", "unknown"} {
      FirstByteRead(b);
      TextIsRead(b);
    } else {
      NumberNameRead(name, bits, v, b);
    }
  }

  lemma NumberNameRead(name: string, bits: nat, v: PyValue, b: Bytes)
    requires b != [] && name != "char" && name != "bool" && name != "unknown"
    ensures BasicReadAs(name, v, b, Decode(KindOf(name), bits, b, v))
  {
    hide NumberRead, FromLe, Pow256, Signed, TextRead;
    Widths();
    FirstByteRead(b);
    if |b| >= 2 { UnsignedRead(b, 2); }
    if |b| >= 4 { SignedRead(b, 4, 0x8000_0000); }
    if |b| >= 8 { SignedRead(b, 8, 0x8000_0000_0000_0000); }
  }

  lemma TextIsRead(b: Bytes)
    ensures if AsciiOnly(b) then TextRead(b, PyStr(StripNuls(AsciiString(b)))) else TextRead(b, PyBytes(b))
  {
    if AsciiOnly(b) {
      var s := AsciiString(b);
      StripRestores(s);
      StripTwice(s);
      StripKeeps(StripNuls(s));
      var x := StripNuls(s);
      assert Ljust(x, |s|) == s;
      forall k | 0 <= k < |b| ensures b[k] == if k < |x| then x[k] as int else 0 {
        assert s[k] as int == b[k];
      }
    }
  }

  lemma PointerRead(t: DIType, bits: nat, v: PyValue, b: Bytes)
    requires t.Pointer?
    ensures ReadAs(t, bits, v, b, Decode(KPtr, bits, b, v))
  {
    hide NumberRead, FromLe, Pow256, Signed;
    Widths();
    if |b| >= 4 { UnsignedRead(b, 4); }
    if |b| >= 8 { SignedRead(b, 8, 0x8000_0000_0000_0000); }
  }

  /** For every C type and every bytes: what reading a field of the type comes to. */
  lemma LeafUnpacked(t: DIType, bits: nat, p: Path, v: PyValue, b: Bytes)
    requires WellFormed(t) && ValidPath(t, p)
    ensures ReadAs(Strip(TypeAt(t, p)), bits, v, b, Decode(LeafKind(t, p), bits, b, v))
  {
    hide BasicReadAs, NumberRead, Decode, ValidPath;
    var u := Strip(TypeAt(t, p));
    TypeAtWellFormed(t, p);
    StripFacts(TypeAt(t, p));
    NothingToRead(LeafKind(t, p), bits, v, b);
    if b != [] {
      match u
      case Basic(name, _, _) => BasicRead(name, bits, v, b);
      case Array(e, _) =>
        NameOfElement(e);
        if Strip(e).Basic? { BasicRead(Strip(e).name, bits, v, b); } else { UnknownRead(bits, v, b); }
      case Pointer(_, _) => PointerRead(u, bits, v, b);
      case _ => UnknownRead(bits, v, b);
    }
  }

  lemma NothingToRead(kind: Kind, bits: nat, v: PyValue, b: Bytes)
    ensures b == [] ==> Decode(kind, bits, b, v) == Value(PyNone)
  {
  }

  lemma UnknownRead(bits: nat, v: PyValue, b: Bytes)
    ensures Decode(KindOf("unknown"), bits, b, v) == Value(PyNone)
  {
  }
}
