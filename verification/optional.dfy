/** Present-or-absent values and fallible results.

    `Option` stands in for the nullable `Point` references of the quadrilateral
    (an unset corner is `None`), and for the nullable `poly` and `boundingRect`
    fields of a freshly constructed object. `Result` carries the one failure the
    modelled code can raise: dereferencing such a null field.
 */
module Optional {

  datatype Option<+T> = None | Some(value: T)

  datatype Result<+T, +E> = Success(value: T) | Failure(error: E)
}
