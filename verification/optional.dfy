/** The optional value used for "nothing arrived this poll" and "nothing was sent". */
module Optional {

  datatype Option<+T> = None | Some(value: T) {

    /** The zero or one values held, as a sequence. */
    function Elements(): seq<T> {
      match this
      case None => []
      case Some(v) => [v]
    }
  }
}
