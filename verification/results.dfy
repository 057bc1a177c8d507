/** Optional values and the outcome of a remote fetch. A fetch either yields its rows
    or fails with the store's message; the hooks never see anything else. */
module Results {

  datatype Option<+T> = None | Some(value: T)

  datatype Result<+T> = Ok(value: T) | Err(message: string)
}
