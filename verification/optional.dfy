/** The optional value the engine returns for a hooked event and keeps for its deadline. */
module Optional {

  /** `None` suppresses an event or marks an absent deadline; `Some` carries the value. */
  datatype Option<+T> = None | Some(value: T)
}
