/** An optional value: `None` stands for a JavaScript value that is absent
    (an unset ref) or not a number, `Some` for one that is present. */
module Options {

  datatype Option<+T> = None | Some(value: T)
}
