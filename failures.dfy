/** Outcomes of the operations of the injector: the Ruby exceptions the code can raise
    become values of `Error`, carried by `Result`. */
module Failures {

  datatype Option<+T> = None | Some(value: T)

  /** The exceptions the modelled code raises. */
  datatype Error =
    /** `Ruse::UnknownServiceError`: no resolver in the chain can build the identifier. */
    | UnknownService(identifier: string)
    /** `NoMethodError`: the method named by `selector` sent to `nil`. */
    | NoMethodOnNil(selector: string)
    /** `NameError`: `const_get` of a constant that is not defined. */
    | UninitializedConstant(name: string)
    /** `KeyError`: `Hash#fetch` of a key the hash does not hold. */
    | KeyError(key: string)
    /** The located constant is a plain module, which has no constructor to call. */
    | NotAClass(path: seq<string>)

  datatype Result<+T> = Ok(value: T) | Err(error: Error)
}
