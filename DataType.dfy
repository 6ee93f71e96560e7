/** The data types and access modes of VM parameters and variables. */
module DataTypes {
  datatype DataType =
    | I8             // 8 bit signed int
    | I16            // 16 bit signed int
    | I32            // 32 bit signed int
    | F              // 4 byte float
    | Unspecified    // reference parameter of any type
    | Label          // jump target
    | VMThread
    | VMSubcall
    | ParameterCount // number of parameters that follow

  datatype AccessType = Read | ReadMany | Write | ReadWrite

  function TypeName(t: DataType): string
  {
    match t
    case I8 => "I8"
    case I16 => "I16"
    case I32 => "I32"
    case F => "F"
    case Unspecified => "Unspecified"
    case Label => "Label"
    case VMThread => "VMThread"
    case VMSubcall => "VMSubcall"
    case ParameterCount => "ParameterCount"
  }
}

/** Whether an argument of a CALL or an opcode line may be passed for a
    parameter of a given type and access mode. */
module DataTypeChecker {
  import opened Common
  import opened DataTypes

  /** The kinds of argument value the assembler hands to the type checker. A float
      literal is carried as the text it is shown with in messages. */
  datatype Argument =
    | Variable(name: string, dtype: DataType)
    | IntConstant(c: int)
    | FloatConstant(text: string)
    | StringLiteral(s: string)
    | OtherArgument

  /** The constant range a parameter type can hold, where constants are
      allowed at all. */
  predicate ConstantFits(c: int, t: DataType)
  {
    match t
    case I8 => -128 <= c <= 127
    case I16 => IsInt16(c)
    case VMThread => IsInt16(c)
    case I32 => true
    case _ => false
  }

  function CheckIntConstant(c: int, t: DataType, access: AccessType): (r: Result<()>)
    ensures r.Ok? <==> access == Read && ConstantFits(c, t)
    ensures access == ReadMany && t == I8 ==>
              r == Err("Using constant value as parameter where a string value or variable reference is required")
  {
    if access == ReadMany && t == I8 then
      Err("Using constant value as parameter where a string value or variable reference is required")
    else if access != Read then
      Err("Using constant value as parameter where a variable reference is required")
    else if t == I8 then
      if c < -128 || c > 127 then Err("Constant value " + IntToString(c) + "+ out of range of I8") else Ok(())
    else if t == I16 || t == VMThread then
      if c < -32768 || c > 32767 then Err("Constant value " + IntToString(c) + "+ out of range of I16") else Ok(())
    else if t == I32 then Ok(())
    else Err("Constant value " + IntToString(c) + " does not fit the parameter type " + TypeName(t))
  }

  function CheckFloatConstant(text: string, t: DataType, access: AccessType): (r: Result<()>)
    ensures r.Ok? <==> (t == F || t == Unspecified) && access == Read
  {
    if t != F && t != Unspecified then Err("Can not use float literal '" + text + "' for this parameter type")
    else if access != Read then Err("Can not use float literal '" + text + "' for output parameter")
    else Ok(())
  }

  function CheckStringLiteral(s: string, t: DataType, access: AccessType): (r: Result<()>)
    ensures r.Ok? <==> t == I8 && (access == Read || access == ReadMany)
  {
    if t != I8 then Err("Can not use string literal '" + s + "' for this parameter type")
    else if access != Read && access != ReadMany then Err("Can not use string literal '" + s + "' for output parameter")
    else Ok(())
  }

  /** DataTypeChecker.check: Ok when the argument may be passed, otherwise
      the message of the exception thrown. */
  function Check(argument: Argument, t: DataType, access: AccessType): (r: Result<()>)
    ensures argument.Variable? ==> (r.Ok? <==> argument.dtype == t || t == Unspecified)
    ensures argument.IntConstant? ==> (r.Ok? <==> access == Read && ConstantFits(argument.c, t))
    ensures argument.FloatConstant? ==> (r.Ok? <==> (t == F || t == Unspecified) && access == Read)
    ensures argument.StringLiteral? ==> (r.Ok? <==> t == I8 && (access == Read || access == ReadMany))
    ensures argument.OtherArgument? ==> r.Ok?
  {
    match argument
    case Variable(name, et) =>
      if et != t && t != Unspecified then Err("Using variable of wrong type for call: " + name) else Ok(())
    case IntConstant(c) => CheckIntConstant(c, t, access)
    case FloatConstant(text) => CheckFloatConstant(text, t, access)
    case StringLiteral(s) => CheckStringLiteral(s, t, access)
    case OtherArgument => Ok(())
  }
}
