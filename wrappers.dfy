/** The nullable results of the engine queries (a picking result, a picked point,
    a picked mesh, a surface normal) are modelled with Option. */
module Wrappers {
  datatype Option<+T> = None | Some(value: T)
}
