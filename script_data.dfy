/**
 * The decoded form of one script file: the instruction records of
 * 0-common.js:79 (`[opcode, seqnum, subop, arg]`), the rows of the table
 * the converter builds and the pending dialogue record it carries.
 */
module ScriptData {
  import opened JsValues

  /** The argument object of an instruction. The script reads the key `''`
      as a sub-command tag for opcode 4 and as a list of branches for
      opcode 51; the two uses are two fields here. An absent tag is any
      string none of the sub-command cases matches. */
  datatype Arg = Arg(
    tag: string,
    branches: seq<Branch>,
    id: Option<string>,
    title: Option<string>,
    target: Option<string>,
    storage: Option<string>,
    text: Option<string>,
    exp: Option<string>)

  /** One `[cond, subscript]` pair of a conditional block. */
  datatype Branch = Branch(cond: Option<string>, body: seq<Instr>)

  /** One instruction. `seqnum` is the sequence marker as it prints in the
      first cell of a row; `subop` is read but never used by the converter. */
  datatype Instr = Instr(opcode: int, seqnum: string, subop: string, arg: Arg)

  /** A table row: sequence marker, kind label (the speaker block for a
      dialogue line) and HTML body. */
  datatype Row = Row(seqnum: string, kind: string, body: string)

  /** The pending dialogue record `dialogArg`. */
  datatype Dialog = Dialog(npc: Option<string>, vo: Option<string>)

  /** The record `{}` the converter starts with and resets to. */
  const NoDialog := Dialog(None, None)

}
