/** The library's error kinds. Each one carries the message text the
    corresponding exception is raised with; all three share the library's
    common base error. */
module Errors {

  datatype Error =
    | ParserError(message: string)
    | ValidationError(message: string)
    | TranspilerError(message: string)
}
