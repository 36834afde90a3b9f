/** Outcome types shared by the decoder, the playback controller and the
    document text extractor. A thrown JavaScript `Error` is modelled by
    `Err` carrying the error's message. */
module Results {

  datatype Option<+T> = None | Some(value: T)

  datatype Result<+T> = Ok(value: T) | Err(message: string)
}
