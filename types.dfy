/** The value types of the command-line library: declared options and parsed arguments. */
module Types {
  import opened Numbers

  /** The kind of value an option expects after its flag (`CmdOptionValueType`). */
  datatype CmdOptionValueType = String | Number | Float | NoValue

  /**
   * A parsed value (`CmdArgumentValue`). A float is kept as the literal that `f32::from_str`
   * accepted; its rounding to the nearest `f32` is not modelled.
   */
  datatype CmdArgumentValue = StringVal(text: string) | NumberVal(number: i32) | FloatVal(literal: string) | NoVal

  /** A parsed argument, keyed in the store by the short form of its option (`CmdArgument`). */
  datatype CmdArgument = CmdArgument(option: string, value: CmdArgumentValue)

  /** A registered option (`CmdLineOption`). */
  datatype CmdLineOption = CmdLineOption(shortform: string, longform: string, description: string, valueType: CmdOptionValueType)

  /**
   * A stored value agrees with the declared type of its option: the matching variant, or `NoVal`,
   * which a value-typed option gets when its flag ends the argument list.
   */
  predicate Conforms(v: CmdArgumentValue, t: CmdOptionValueType)
  {
    match v
    case NoVal => true
    case StringVal(_) => t == String
    case NumberVal(_) => t == Number
    case FloatVal(_) => t == Float
  }
}
