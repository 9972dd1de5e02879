/** The optional value used for values the table receives from its collaborators
    (a drag without a drop target, a cancelled name prompt). */
module Wrappers {
  datatype Option<+T> = None | Some(value: T)
}
