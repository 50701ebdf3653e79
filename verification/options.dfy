/** The optional values of the TypeScript sources (`T | null`, `field?: T`). */
module Options {

  datatype Option<+T> = None | Some(value: T)
}
