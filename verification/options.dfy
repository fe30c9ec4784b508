/** The optional value used across the model: a JavaScript `null`/`undefined`
    or a regular-expression miss is `None`. */
module Options {

  datatype Option<+T> = None | Some(value: T) {

    /** The value as a sequence of zero or one elements. */
    function ToSeq(): (r: seq<T>)
      ensures |r| <= 1
      ensures Some? <==> |r| == 1
      ensures Some? ==> r[0] == value
    {
      match this
      case Some(v) => [v]
      case None => []
    }
  }
}
