/** An optional value; `None` stands for JavaScript's `null`, `undefined` or `NaN`
    wherever the source uses one of them to mean "no value". It is failure-compatible,
    so readers can use `:-`. */
module Options {

  datatype Option<+T> = None | Some(value: T) {

    predicate IsFailure() {
      None?
    }

    function PropagateFailure<U>(): Option<U>
      requires None?
    {
      None
    }

    function Extract(): T
      requires Some?
    {
      value
    }
  }
}
