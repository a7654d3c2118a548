/** An optional value: `None` stands for an absent part or for the error raised
    by a bounds-checked subscript. */
module Options {

  datatype Option<T> = None | Some(value: T)

}
