/** The exceptions the pipeline raises, or lets propagate, by kind. */
module Errors {

  datatype Error =
      /** "Network error after {n} attempts: {e}", raised by the fetcher when its
          last attempt failed with a `requests` exception. */
    | FetchNetworkError(attempts: nat, detail: string)
      /** "Failed to fetch stock data after {n} attempts: {e}", raised by the
          fetcher when its last attempt failed with any other exception. */
    | FetchFailed(attempts: nat, detail: string)
      /** "No data to process": the transformer's input is None or empty. */
    | NoDataToProcess
      /** pandas `reset_index` refuses a label that is already a column. */
    | IndexCollision(name: string)
      /** `df['Date']` on a frame without a Date column (a KeyError). */
    | ColumnNotFound(name: string)
      /** `pd.to_datetime` could not read a Date cell as a timestamp. */
    | DateConversion
      /** "Missing required columns: {missing}". */
    | MissingColumns(missing: seq<string>)
      /** "No data to upload": the loader's input is None or empty. */
    | NoDataToUpload
      /** The warehouse's retryable "service unavailable" error. */
    | ServiceUnavailable(detail: string)
      /** Any other failure of a load job (credentials, client, job). */
    | LoadFailed(detail: string)
}
