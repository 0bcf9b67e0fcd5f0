/** The museum record of the dataset, and the Option type used for absent values. */
module Museums {

  /** One aviation museum, as loaded from the dataset. Coordinates are exact reals. */
  datatype Museum = Museum(
    id: int,
    name: string,
    province: string,
    city: string,
    lat: real,
    lng: real,
    description: string,
    address: string)

  /** A value that may be absent (an optional callback, a failed load). */
  datatype Option<T> = None | Some(value: T)
}
