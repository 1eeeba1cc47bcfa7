/** Failure-carrying values shared by every puzzle model: a panic, a failed
    `unwrap` or a rejected parse in the original program becomes `None`. */
module Wrappers {

  datatype Option<+T> = None | Some(value: T)

}
