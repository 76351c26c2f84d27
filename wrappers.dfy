/** Nullable values: `T | null` in the TypeScript component. */
module Wrappers {
  datatype Option<+T> = None | Some(value: T)
}
