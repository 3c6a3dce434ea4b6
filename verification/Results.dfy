/** Optional values and results, for the sources' null / Option / Result / thrown errors. */
module Results {
  datatype Option<+T> = None | Some(value: T)

  datatype Error = BadArgument | TooLarge | NotFound | BadState | Full

  datatype Result<+T> = Ok(value: T) | Err(error: Error)
}
