/** The records the viewer reads from the repository listing endpoint, and the
    optional and failure wrappers used throughout the model. */
module Types {

  /** JavaScript `null`/`undefined` versus a present value. */
  datatype Option<T> = None | Some(value: T)

  /** A value, or the error that aborted the computation producing it. */
  datatype Result<T, E> = Ok(value: T) | Err(error: E)

  /** One repository record, restricted to the fields the viewer reads.
      `topics` is the empty sequence when the API omits it (the source reads
      `r.topics || []` everywhere); `updatedAt` is the `updated_at` timestamp
      already converted to an integer. */
  datatype Repo = Repo(
    name: string,
    description: Option<string>,
    language: Option<string>,
    stars: int,
    forks: int,
    fork: bool,
    homepage: Option<string>,
    htmlUrl: string,
    topics: seq<string>,
    updatedAt: int)

  /** JavaScript truthiness of an optional string: present and not empty. */
  predicate Truthy(s: Option<string>)
  {
    s.Some? && s.value != ""
  }
}
