/** The nullable values of the bot's per-user JSON record: a field is either
    absent (`null` in the stored document) or holds a value. */
module Wrappers {

  datatype Option<+T> = None | Some(value: T)

}
