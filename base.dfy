/** Small shared datatypes: optional values, the outcome of a REST call, and the toast a handler shows. */
module Base {

  datatype Option<+T> = None | Some(value: T)

  /** Outcome of an awaited REST call: the response body, or a rejected promise. */
  datatype Response<+T> = Ok(data: T) | Failed

  /** The react-hot-toast notification a handler raises, if any. */
  datatype Toast = NoToast | ToastSuccess(message: string) | ToastError(message: string)
}
