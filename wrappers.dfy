/** A nullable value, as the nullable model fields and JavaScript's null carry it. */
module Wrappers {

  datatype Option<+T> = None | Some(value: T)
}
