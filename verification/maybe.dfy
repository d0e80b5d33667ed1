/** Optional values: the model's stand-in for the JavaScript `null` returns of the injector. */
module Maybe {

  datatype Option<+T> = None | Some(value: T)
}
