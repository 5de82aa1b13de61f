/** The optional value used throughout the model: `None` stands for an absent
    file, an absent handler, or a remote call that raised. */
module Options {

  datatype Option<+T> = None | Some(value: T)
}
