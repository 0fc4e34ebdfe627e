/** The absent-or-present value used wherever the editor's JavaScript returns
    `null` / `undefined` or a value (`Array.prototype.find`, the selected id). */
module Wrappers {

  datatype Option<+T> = None | Some(value: T) {

    /** The value, or `default` when absent (JavaScript's `x ?? default`). */
    function GetOr(default: T): T {
      match this
      case Some(v) => v
      case None => default
    }
  }
}
