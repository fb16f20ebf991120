/** Optional values: the model of a JavaScript lookup that may come back `undefined`. */
module Options {

  datatype Option<+T> = None | Some(value: T)
}
