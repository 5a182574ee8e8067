/** The values every operation of the crate shares: optional values, results and errors. */
module Errors {

  datatype Option<+T> = None | Some(value: T)

  /** `Result<T, PatchError>`; `:-` is the crate's `?`. */
  datatype Result<+T> = Ok(value: T) | Err(error: PatchError) {
    predicate IsFailure() {
      Err?
    }

    function PropagateFailure<U>(): Result<U>
      requires Err?
    {
      Err(error)
    }

    function Extract(): T
      requires Ok?
    {
      value
    }
  }

  /** Why one candidate base was refused: the cases behind the text of `last_error`. */
  datatype Refusal =
    | MappingFailed
    | PlacedElsewhere(requested: int, actual: int)
    | ExitsUnreachable(base: int)

  /** `PatchError` without message text and without the module lookup. */
  datatype PatchError =
    | AddressOverflow
    | EmptyPatch
    | EmptyTrampoline
    | InstructionCache(address: int)
    | Mapping
    | NoMemoryCave(hook: int, lastError: Option<Refusal>)
    | PatchTooSmall(size: int, minimum: int)
    | OverlappingPatch(first: int, second: int)
    | Protection(address: int)
    | RelativeJumpOutOfRange(nextInstruction: int, destination: int)
    | SourceChanged(address: int)
    | TrampolineTooLarge(size: int, capacity: int)
    | UnexpectedTrampolineSize(expected: int, actual: int)
    | InvalidLabel(id: int)
    | LabelAlreadyBound(id: int)
    | UnboundLabel(id: int)

  /** Which return register of the callback stays visible to the hooked code. */
  datatype ReturnType = NoReturn | Rax | Xmm0
}
