/**
 * The messages the parser and the number optimiser send to their logger,
 * as data. The logger itself only collects them, so the model keeps an
 * append-only sequence of entries.
 */
module Diagnostics {

  datatype Severity = Information | Warning | Error

  datatype Message =
    | RemovedInvalidProperty(property: string)
    | InvalidProperty(level: string, property: string)
    | FixedNewlineInString
    | CharsetRedefined
    | CharsetNotFirst
    | NamespaceAfterSelectors
    | ImportAfterSelectors
    | ImportInsideMedia
    | ReplacedUnicode(escape: string, decoded: char)
    | RemovedBackslash
    | AddedSemicolon
    | InvalidColor(part: string, property: string)
    | AddedPxUnit(part: string)
    | RemovedZeroUnit(unit: string, part: string)

  /** One logged line: what, how serious, and the current line when the logger is given one. */
  datatype Entry = Entry(message: Message, severity: Severity, line: nat)

  type Log = seq<Entry>
}
