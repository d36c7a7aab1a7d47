/** An optional value: `None` stands for JavaScript's `null`, an absent field or `NaN`, as each use says. */
module Optional {
  datatype Option<+T> = None | Some(value: T)
}
