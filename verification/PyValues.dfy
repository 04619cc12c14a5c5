// The Python side: the values a dataclass field can hold.
module PyValues {
  import opened Common
  import opened ByteMemory
  import opened Decimal

  /** Python's `id` of an object. */
  type Id = nat

  /** A pointer target that has no address yet: an object and an offset into it. */
  datatype ObjectOffset = ObjectOffset(target: Id, offset: nat)

  /** `PyPtr` is the PTR class with its `ptr` and `cache` attributes. A dataclass object
      lists its fields in order, without those whose names start with two underscores. */
  datatype PyValue =
    | PyInt(n: int)
    | PyBool(b: bool)
    | PyStr(s: string)
    | PyBytes(raw: Bytes)
    | PyNone
    | PyPtr(ptr: Option<int>, cache: Option<ObjectOffset>)
    | PyList(items: seq<PyValue>)
    | PyObject(fields: seq<Field>)

  datatype Field = Field(name: string, value: PyValue)

  predicate IsInt(v: PyValue) {
    v.PyInt? || v.PyBool?
  }

  /** Python compares booleans as the numbers 0 and 1. */
  function Num(v: PyValue): int
    requires IsInt(v)
  {
    match v
    case PyInt(n) => n
    case PyBool(b) => if b then 1 else 0
  }

  predicate PyEqual(x: PyValue, y: PyValue) {
    if IsInt(x) && IsInt(y) then Num(x) == Num(y) else x == y
  }

  /** What set_struct hands on for a leaf: a PTR object becomes its address. */
  function Payload(v: PyValue): PyValue {
    match v
    case PyPtr(Some(p), _) => PyInt(p)
    case PyPtr(None, _) => PyNone
    case _ => v
  }

  // ---- Containers: dataclass objects and lists ----

  predicate Container(v: PyValue) {
    v.PyObject? || v.PyList?
  }

  function Count(v: PyValue): nat
    requires Container(v)
  {
    if v.PyObject? then |v.fields| else |v.items|
  }

  function ChildValue(v: PyValue, k: nat): (r: PyValue)
    requires Container(v) && k < Count(v)
    ensures r < v
  {
    if v.PyObject? then v.fields[k].value else v.items[k]
  }

  /** What set_struct and get_struct append to the path for a child. */
  function ChildName(v: PyValue, k: nat): string
    requires Container(v) && k < Count(v)
  {
    if v.PyObject? then v.fields[k].name else ToString(k)
  }

  /** `v` with its children replaced. */
  function WithChildren(v: PyValue, children: seq<PyValue>): (r: PyValue)
    requires Container(v) && |children| == Count(v)
    ensures Container(r) && Count(r) == Count(v) && r.PyObject? == v.PyObject?
    ensures forall k | 0 <= k < Count(v) :: ChildValue(r, k) == children[k] && ChildName(r, k) == ChildName(v, k)
  {
    if v.PyObject? then
      PyObject(seq(|children|, k requires 0 <= k < |children| => Field(v.fields[k].name, children[k])))
    else PyList(children)
  }
}
