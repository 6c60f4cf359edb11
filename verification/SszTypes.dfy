/** The types that the codec covers, their values and their declared sizes. */
module SszTypes {
  import opened Bytes
  import opened BeaconTypes

  /**
   `Vector` is a fixed-length array, `List` a vector or a vector of bounded length; `BitVector` and
   `BitList` are their compact forms over booleans; `Container` is a struct with derived codecs,
   in which a field of type `BitVector` or `BitList` is one marked compact.
   */
  datatype Type =
    | UInt(bytes: nat)
    | Bool
    | Vector(elem: Type, len: nat)
    | List(elem: Type, max: Option<nat>)
    | BitVector(len: nat)
    | BitList(max: Option<nat>)
    | Container(fields: seq<Type>)

  datatype Value =
    | Num(n: nat)
    | Flag(b: bool)
    | Bits(bits: seq<bool>)
    | Items(items: seq<Value>)

  predicate Within(n: nat, max: Option<nat>) {
    max.Some? ==> n <= max.value
  }

  predicate HasType(v: Value, t: Type) {
    match t
    case UInt(bytes) => v.Num? && v.n < Pow256(bytes)
    case Bool => v.Flag?
    case Vector(elem, len) => v.Items? && |v.items| == len && forall i :: 0 <= i < len ==> HasType(v.items[i], elem)
    case List(elem, max) =>
      v.Items? && Within(|v.items|, max) && forall i :: 0 <= i < |v.items| ==> HasType(v.items[i], elem)
    case BitVector(len) => v.Bits? && |v.bits| == len
    case BitList(max) => v.Bits? && Within(|v.bits|, max)
    case Container(fields) =>
      v.Items? && |v.items| == |fields| && forall i :: 0 <= i < |fields| ==> HasType(v.items[i], fields[i])
  }

  /** The declared size of a type on its own; `None` for a variable-size type. */
  function Size(t: Type): Option<nat>
    decreases t, 0
  {
    match t
    case UInt(bytes) => Some(bytes)
    case Bool => Some(1)
    case Vector(elem, len) => if Size(elem).Some? then Some(Size(elem).value * len) else None
    case List(_, _) => None
    case BitVector(len) => Some((len + 7) / 8)
    case BitList(_) => None
    case Container(fields) => SumSizes(seq(|fields|, i requires 0 <= i < |fields| => FieldSize(fields[i])))
  }

  /** The size that a container's own size counts for a field: of the type without its compact mark. */
  function FieldSize(t: Type): Option<nat>
    decreases t, 1
  {
    if t.BitVector? then Some(t.len) else Size(t)
  }

  function SumSizes(sizes: seq<Option<nat>>): Option<nat> {
    if sizes == [] then Some(0) else
    var rest := SumSizes(sizes[1..]);
    if sizes[0].Some? && rest.Some? then Some(sizes[0].value + rest.value) else None
  }

  datatype Fault = IncorrectSize | InvalidType | InvalidLength | ListTooLarge | SlicePanic | NoProgress

  /** `SlicePanic` stands for a Rust panic and `NoProgress` for a loop that never ends. */
  datatype Decoded<+T> = Good(value: T) | Bad(fault: Fault) {
    predicate IsFailure() { Bad? }

    function PropagateFailure<U>(): Decoded<U>
      requires Bad?
    {
      Bad(fault)
    }

    function Extract(): T
      requires Good?
    {
      value
    }
  }
}
