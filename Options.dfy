/** The optional value used for results that may be absent: a version string
    that does not parse, a catalog that has no minimum, a launch that gave up. */
module Options {

  datatype Option<+T> = None | Some(value: T)
}
