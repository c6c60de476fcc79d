/** Outcomes of the visualisation pipeline: a value, or the reason it stopped. */
module Outcome {

  datatype Option<+T> = None | Some(value: T)

  /** Why `visualize_data` stops without drawing the spectra. */
  datatype Error =
    | EmptyFile       // the loaded buffer holds no sample; a warning is shown and nothing is split
    | EmptyTransform  // numpy refuses to transform a component that holds no sample
    | EmptyReduction  // numpy refuses to take the maximum of a spectrum slice that holds no bin

  datatype Result<+T> = Ok(value: T) | Err(error: Error)
}
