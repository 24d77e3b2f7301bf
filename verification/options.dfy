/** The optional value used wherever the widget reads something that may be
    absent: the container element behind a ref, or the first touch point of
    a touch event. */
module Options {

  datatype Option<+T> = None | Some(value: T)

}
