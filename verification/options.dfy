/** The optional values the overlay passes around where the Java code uses
    `Optional<T>` or a nullable reference. */
module Options {

  datatype Option<+T> = None | Some(value: T)
}
