/** The part of Rust's `Option` that the lookup dispatcher relies on. */
module Options {

  /** Absence or a present value. */
  datatype Option<+T> = None | Some(value: T) {

    /** Rust's `or_else`: a present value wins; otherwise the alternative is
        taken, whether it is present or not. Evaluating the alternative lazily
        has no observable effect here, since every lookup is pure. */
    function OrElse(alternative: Option<T>): (r: Option<T>)
      ensures r.Some? <==> Some? || alternative.Some?
      ensures Some? ==> r == this
      ensures None? ==> r == alternative
    {
      match this
      case Some(_) => this
      case None => alternative
    }
  }
}
