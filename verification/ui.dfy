/** What a handler hands back to the page: the next state and the toast
    notification it raises, if any. */
module Ui {

  datatype Toast = Silent | Success(text: string) | Error(text: string)

  /** The result of one event handler: every state setter the handler calls
      folded into `next`, plus its toast. */
  datatype Step<S> = Step(next: S, toast: Toast)

  /** The shared badge colour classes. */
  const Green := "bg-green-100 text-green-800"
  const Yellow := "bg-yellow-100 text-yellow-800"
  const Blue := "bg-blue-100 text-blue-800"
  const Red := "bg-red-100 text-red-800"
  const Gray := "bg-gray-100 text-gray-800"

  /** A classification table read with a neutral default: the
      configuration-driven counterpart of each page's `switch`. */
  function Lookup(table: map<string, string>, key: string, default: string): string
  {
    if key in table then table[key] else default
  }
}
