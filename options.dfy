/** Python's `None`-or-value results (`cv2.imread` returning None, `_active_dialogue = None`, ...). */
module Options {
  datatype Option<+T> = None | Some(value: T)
}
