/** The absent-or-present value the counter returns: `None` stands for the
    Python `None` that `count_words` returns when the file is missing. */
module Wrappers {

  datatype Option<+T> = None | Some(value: T)
}
