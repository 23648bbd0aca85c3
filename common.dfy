/** Shared vocabulary of the text-statistics model: tokens, the Python
    exceptions the pipeline can raise, and a result type that carries them. */
module Common {

  /** A token as produced by the word tokenizer (a Python `str`). */
  type Token = string

  /** The exceptions the modelled code can raise. */
  datatype PyError =
    | ZeroDivisionError   // float division by zero
    | UnpackError         // `a, b = zip(*[])`: not enough values to unpack

  datatype Result<T> = Ok(value: T) | Err(error: PyError)
}
