/** The nullable fields of the page records (`endTime: null`,
    `selectedCustomer: null`). */
module Wrappers {

  datatype Option<+T> = None | Some(value: T)
}
