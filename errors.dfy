/** The errors the passes raise (src/utils/error.ts), as values. */
module Errors {

  datatype Error =
    /** `raiseUnexpectedNode(nodeType, type)`: an AST shape the passes do not support. */
    | UnexpectedNode(nodeType: string, typeName: string)
    /** Reading `type` of a missing array-pattern element (a hole such as `[, x]`). */
    | HoleTypeError
}
