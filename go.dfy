/**
 * Go values that every package of the library shares: the optional value a
 * `*T` field stands for, a byte, and a slice that tells `nil` apart from an
 * empty slice (as `reflect.DeepEqual` does).
 */
module Go {

  /** A Go pointer field `*T`: `nil` is `None`, `gvalue.Ptr(x)` is `Some(x)`. */
  datatype Option<T> = None | Some(value: T)

  newtype byte = x: int | 0 <= x < 256

  /** The bytes of a `[]byte` or of a Go `string` (a Go string is a byte sequence). */
  type Bytes = seq<byte>

  /** A Go slice: the nil slice, or a slice with a (possibly empty) backing sequence. */
  datatype GoSlice<T> = Nil | Arr(elems: seq<T>) {

    /** What `range` visits: nothing for nil. */
    function Elems(): seq<T> {
      if Nil? then [] else elems
    }

    /** `len(s)`, which is 0 for nil. */
    function Len(): nat {
      |Elems()|
    }
  }

  /**
   * A Go `error` value: a sentinel made by `errors.New` / `fmt.Errorf`
   * without `%w` (told apart by its variable's name, as Go tells them apart
   * by identity), an error wrapping another by `fmt.Errorf` with `%w`, or an
   * error from library code whose structure the model does not see.
   */
  datatype Error = Sentinel(name: string, msg: string) | Wrapped(prefix: string, inner: Error) | Opaque(msg: string)

  /** `err.Error()`: a wrapping error prints its own text followed by the wrapped one's. */
  function Message(e: Error): string {
    match e
    case Sentinel(_, msg) => msg
    case Wrapped(prefix, inner) => prefix + Message(inner)
    case Opaque(msg) => msg
  }

  /** `errors.Is(e, target)`: `target` is `e` or is reached by unwrapping `e`. */
  predicate Is(e: Error, target: Error) {
    e == target || (e.Wrapped? && Is(e.inner, target))
  }

  /** A sequence holds no value twice. */
  predicate NoDuplicates<T(==)>(s: seq<T>) {
    forall i, j :: 0 <= i < j < |s| ==> s[i] != s[j]
  }
}
