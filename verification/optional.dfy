/** An optional value; None stands for JavaScript's `undefined`, which the
    browser shows where an index falls outside the label table or a split
    has no second piece. */
module Optional {

  datatype Option<+T> = None | Some(value: T)

}
