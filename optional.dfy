/** An optional value: what a lookup returns when the row it asks for may
    not exist. */
module Optional {
  datatype Option<T> = None | Some(value: T)
}
