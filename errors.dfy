/**
 * The exceptions the conversation code distinguishes, and the error codes of
 * backend/AI_API/general/error_texts.py that it raises itself.
 */
module Errors {
  /** `ErrorCode.LLM_ERROR_GETTING_CRUD_RESULT`. */
  const LlmErrorGettingCrudResult: nat := 1002
  /** `ErrorCode.LLM_ERROR_EMPTY_ANSWER`. */
  const LlmErrorEmptyAnswer: nat := 1010
  /** `ErrorCode.ERROR_PERFORMING_CRUD_OPERATION`. */
  const ErrorPerformingCrudOperation: nat := 3009

  /**
   * An exception as the handlers see it: the project's own `APIError` with its numeric code,
   * an error of the Gemini SDK, a `requests` error, or anything else.
   */
  datatype Exc = ApiError(code: nat) | GenaiError | RequestError | OtherError

  /** What a call into code outside the model does: return a value or raise. */
  datatype Outcome<T> = Returns(value: T) | Raises(exc: Exc)
}
