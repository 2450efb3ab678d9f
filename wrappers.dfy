/** Rust's `Option`, as the Pod's `metadata.labels` field uses it. */
module Wrappers {

  datatype Option<+T> = None | Some(value: T)

}
