/**
 * `scriptToHTML` (0-common.js:75-110): one pass over a script's
 * instructions that appends rows to a table while carrying a pending
 * dialogue record and a choice accumulator, recursing into the nested
 * scripts of conditional blocks, and finally rendering the rows as an HTML
 * table.
 *
 * `Step` and `Run` are the specification: the state after each instruction
 * as a fold over the script. `ScriptToHtml` is the loop itself, proved to
 * produce `Table` of its input.
 */
module Interpreter {
  import opened JsValues
  import opened Text
  import opened ScriptData
  import opened Format

  /** The three variables of one interpreter pass. */
  datatype State = State(rows: seq<Row>, dialog: Dialog, choices: seq<Arg>)

  /** The state at the start of every pass, nested ones included. */
  const Start := State([], NoDialog, [])

  /** `'<tr><td>' + row.join('</td><td>') + '</td></tr>'`. */
  function RowHtml(row: Row): (r: string)
    ensures r == "<tr><td>" + row.seqnum + "</td><td>" + row.kind + "</td><td>" + row.body + "</td></tr>"
  {
    var cells := [row.seqnum, row.kind, row.body];
    var sep := "</td><td>";
    assert cells[1..] == [row.kind, row.body] && cells[1..][1..] == [row.body];
    assert Join(cells, sep) == row.seqnum + sep + (row.kind + sep + row.body);
    "<tr><td>" + Join(cells, "</td><td>") + "</td></tr>"
  }

  /** `tableRows.map(RowHtml)`. */
  function RowHtmls(rows: seq<Row>): (r: seq<string>)
    ensures |r| == |rows|
    ensures forall k :: 0 <= k < |rows| ==> r[k] == RowHtml(rows[k])
  {
    if rows == [] then [] else [RowHtml(rows[0])] + RowHtmls(rows[1..])
  }

  /** The rendered table: `<table>`, one `<tr>` per row, `</table>`. */
  function RenderTable(rows: seq<Row>): string
  {
    "<table>" + Join(RowHtmls(rows), "") + "</table>"
  }

  /** The row a conditional branch contributes: its escaped condition, a
      line break and the table of its own nested script. */
  function CondRow(seqnum: string, b: Branch, storage: string, md5: string -> string): Row
    decreases b, 2
  {
    Row(seqnum, KCond, FmtExpression(b.cond) + "<br/>" + Table(b.body, storage, md5))
  }

  /** One row per branch of a conditional block, in branch order. */
  function CondRows(seqnum: string, bs: seq<Branch>, storage: string, md5: string -> string): seq<Row>
    decreases bs
  {
    if bs == [] then []
    else [CondRow(seqnum, bs[0], storage, md5)] + CondRows(seqnum, bs[1..], storage, md5)
  }

  /** What the `switch` of the loop does for one instruction. */
  function Step(st: State, ins: Instr, storage: string, md5: string -> string): State
    decreases ins
  {
    match ins.opcode
    case 0 => st.(rows := st.rows + [Row(ins.seqnum, KLabel, FmtLabel(storage, ins.arg))])
    case 1 => st.(rows := st.rows + [Row(ins.seqnum, KJump, FmtJump(storage, ins.arg))])
    case 4 => CallStep(st, ins.seqnum, ins.arg, storage)
    case 5 => st.(rows := st.rows + [FmtDialogRow(ins.seqnum, st.dialog, ins.arg.text, md5)], dialog := NoDialog)
    case 50 => st.(rows := st.rows + [Row(ins.seqnum, KExpr, FmtExpression(ins.arg.exp))])
    case 51 => st.(rows := st.rows + CondRows(ins.seqnum, ins.arg.branches, storage, md5))
    case _ => st
  }

  /** The sub-command dispatch of opcode 4. */
  function CallStep(st: State, seqnum: string, arg: Arg, storage: string): State
  {
    match arg.tag
    case "npc" => st.(dialog := st.dialog.(npc := arg.id))
    case "vo" => st.(dialog := st.dialog.(vo := arg.storage))
    case "selstart" => st.(choices := [])
    case "selbutton" => st.(choices := st.choices + [arg])
    case "selend" => st.(rows := st.rows + [Row(seqnum, KSels, FmtChoices(storage, st.choices))])
    case "dia" => st.(rows := st.rows + [Row(seqnum, "", TxtDia)])
    case _ => st
  }

  /** The state after running `data` from `st`, instruction by instruction. */
  function Run(st: State, data: seq<Instr>, storage: string, md5: string -> string): State
    decreases data, 0
  {
    if data == [] then st
    else Run(Step(st, data[0], storage, md5), data[1..], storage, md5)
  }

  /** The rows one pass over `data` produces. */
  function Rows(data: seq<Instr>, storage: string, md5: string -> string): seq<Row>
    decreases data, 1
  {
    Run(Start, data, storage, md5).rows
  }

  /** What `scriptToHTML(data, storage)` returns. */
  function Table(data: seq<Instr>, storage: string, md5: string -> string): string
    decreases data, 2
  {
    RenderTable(Rows(data, storage, md5))
  }

  /** `scriptToHTML`: the loop over the instructions, with the row list,
      the dialogue record and the choice list as local variables. */
  method ScriptToHtml(data: seq<Instr>, storage: string, md5: string -> string) returns (html: string)
    ensures html == Table(data, storage, md5)
    decreases data, 1
  {
    var tableRows: seq<Row> := [];
    var dialogArg := NoDialog;
    var selChoices: seq<Arg> := [];
    var i := 0;
    while i < |data|
      invariant 0 <= i <= |data|
      invariant Run(State(tableRows, dialogArg, selChoices), data[i..], storage, md5) == Run(Start, data, storage, md5)
    {
      var ins := data[i];
      RunFrom(State(tableRows, dialogArg, selChoices), data, i, storage, md5);
      ghost var before := State(tableRows, dialogArg, selChoices);
      match ins.opcode {
        case 0 =>
          tableRows := tableRows + [Row(ins.seqnum, KLabel, FmtLabel(storage, ins.arg))];
          assert State(tableRows, dialogArg, selChoices) == Step(before, ins, storage, md5);
        case 1 =>
          tableRows := tableRows + [Row(ins.seqnum, KJump, FmtJump(storage, ins.arg))];
          assert State(tableRows, dialogArg, selChoices) == Step(before, ins, storage, md5);
        case 4 =>
          match ins.arg.tag {
            case "npc" => dialogArg := dialogArg.(npc := ins.arg.id);
            case "vo" => dialogArg := dialogArg.(vo := ins.arg.storage);
            case "selstart" => selChoices := [];
            case "selbutton" => selChoices := selChoices + [ins.arg];
            case "selend" =>
              tableRows := tableRows + [Row(ins.seqnum, KSels, FmtChoices(storage, selChoices))];
            case "dia" => tableRows := tableRows + [Row(ins.seqnum, "", TxtDia)];
            case _ =>
          }
          assert State(tableRows, dialogArg, selChoices) == CallStep(before, ins.seqnum, ins.arg, storage);
          assert State(tableRows, dialogArg, selChoices) == Step(before, ins, storage, md5);
        case 5 =>
          tableRows := tableRows + [FmtDialogRow(ins.seqnum, dialogArg, ins.arg.text, md5)];
          dialogArg := NoDialog;
          assert State(tableRows, dialogArg, selChoices) == Step(before, ins, storage, md5);
        case 50 =>
          tableRows := tableRows + [Row(ins.seqnum, KExpr, FmtExpression(ins.arg.exp))];
          assert State(tableRows, dialogArg, selChoices) == Step(before, ins, storage, md5);
        case 51 =>
          var condRows := CondBlockRows(ins.seqnum, ins.arg.branches, storage, md5);
          tableRows := tableRows + condRows;
          assert State(tableRows, dialogArg, selChoices) == Step(before, ins, storage, md5);
        case _ =>
          assert State(tableRows, dialogArg, selChoices) == Step(before, ins, storage, md5);
      }
      i := i + 1;
    }
    assert data[|data|..] == [];
    html := RenderTable(tableRows);
  }

  /** The `for` loop of opcode 51: one Condition row per branch, each
      holding the escaped condition and the table of a nested pass over the
      branch's script. */
  method CondBlockRows(seqnum: string, bs: seq<Branch>, storage: string, md5: string -> string)
    returns (rows: seq<Row>)
    ensures rows == CondRows(seqnum, bs, storage, md5)
    decreases bs, 0
  {
    rows := [];
    var j := 0;
    while j < |bs|
      invariant 0 <= j <= |bs|
      invariant rows + CondRows(seqnum, bs[j..], storage, md5) == CondRows(seqnum, bs, storage, md5)
    {
      var nested := ScriptToHtml(bs[j].body, storage, md5);
      var row := Row(seqnum, KCond, FmtExpression(bs[j].cond) + "<br/>" + nested);
      CondRowsFrom(seqnum, bs, j, row, storage, md5);
      AppendAssoc(rows, [row], CondRows(seqnum, bs[j + 1..], storage, md5));
      rows := rows + [row];
      j := j + 1;
    }
    assert bs[|bs|..] == [];
  }

  /** One step of the loop of `CondBlockRows`: the rows from branch `j` on
      are the row of branch `j` followed by the rows from `j + 1` on. */
  lemma CondRowsFrom(seqnum: string, bs: seq<Branch>, j: int, row: Row, storage: string, md5: string -> string)
    requires 0 <= j < |bs|
    requires row == Row(seqnum, KCond, FmtExpression(bs[j].cond) + "<br/>" + Table(bs[j].body, storage, md5))
    ensures CondRows(seqnum, bs[j..], storage, md5) == [row] + CondRows(seqnum, bs[j + 1..], storage, md5)
  {
    assert row == CondRow(seqnum, bs[j], storage, md5);
    assert bs[j..][0] == bs[j] && bs[j..][1..] == bs[j + 1..];
  }

  /** One step of the loop of `ScriptToHtml`: running from instruction `i`
      is running instruction `i`, then the rest. */
  lemma RunFrom(st: State, data: seq<Instr>, i: int, storage: string, md5: string -> string)
    requires 0 <= i < |data|
    ensures Run(st, data[i..], storage, md5) == Run(Step(st, data[i], storage, md5), data[i + 1..], storage, md5)
  {
    assert data[i..][0] == data[i] && data[i..][1..] == data[i + 1..];
  }
}
