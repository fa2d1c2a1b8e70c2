/** The four-state value observers of a lookup see (ApiResponse.kt). */
module ApiResponses {

  /** `Initial` and `Loading` carry nothing, `Success` exactly one payload,
      `Error` only a message. */
  datatype ApiResponse<+T> = Loading | Initial | Success(data: T) | Error(message: string) {

    /** The two states a lookup ends in. */
    predicate IsTerminal() {
      Success? || Error?
    }
  }
}
