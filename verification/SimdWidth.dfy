/** The SIMD widths the dispatcher can select, narrowest first. */
module SimdWidth {

  datatype Width = Sse41 | Avx2 | Avx512

  function Index(w: Width): (i: nat) {
    match w
    case Sse41 => 0
    case Avx2 => 1
    case Avx512 => 2
  }

  predicate IsWide(w: Width) {
    w != Sse41
  }

  datatype Option<T> = None | Some(value: T)
}
