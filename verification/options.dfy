/** The optional value used wherever the bot returns `None`, an empty dict or a missing cell. */
module Options {

  datatype Option<+T> = None | Some(value: T) {

    /** The carried value, or `default` when there is none. */
    function GetOr(default: T): T {
      match this
      case Some(v) => v
      case None => default
    }
  }
}
