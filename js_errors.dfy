/** The thrown values the core inspects. `kind` is what `instanceof` tests
    (`SyntaxError`, `TypeError`, `DOMException`, anything else); `name` and
    `message` are the object's properties, an absent message being `""`
    (both are falsy in the source's `err.message &&` tests). A thrown
    primitive other than `null` and `undefined` has neither property and is
    `JsError(OtherError, "", "")`. */
module JsErrors {

  datatype ErrorKind = SyntaxError | TypeError | DomException | OtherError

  datatype JsError = JsError(kind: ErrorKind, name: string, message: string)

  /** What reaches a handler: a value with properties, or `null` /
      `undefined`, on which reading a property throws a `TypeError`. */
  datatype Thrown = Raised(error: JsError) | Nullish
}
