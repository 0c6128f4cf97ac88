/**
 * What one pass of `scriptToHTML` guarantees, proved about its
 * specification `Step`/`Run`: rows are only appended and in instruction
 * order, unknown instructions are no-ops, the pending dialogue record is
 * consumed by the next dialogue line, choices accumulate between `selstart`
 * and `selend`, conditional blocks give one row per branch from a fresh
 * nested pass, and the table renders one `<tr>` per row.
 */
module ScriptProperties {
  import opened JsValues
  import opened Text
  import opened ScriptData
  import opened Format
  import opened Interpreter

  /** The sub-command tags the opcode-4 dispatch handles. */
  const CallTags: set<string> := {"npc", "vo", "selstart", "selbutton", "selend", "dia"}

  /** The opcodes the loop's `switch` handles. */
  const Opcodes: set<int> := {0, 1, 4, 5, 50, 51}

  /** Instructions for which the `switch` has a case that does something. */
  predicate Handled(ins: Instr)
  {
    ins.opcode in Opcodes && (ins.opcode == 4 ==> ins.arg.tag in CallTags)
  }

  predicate IsCall(ins: Instr, tag: string)
  {
    ins.opcode == 4 && ins.arg.tag == tag
  }

  // ----- order: rows are only appended -----

  /** What opcodes 0, 1 and 50 do to the state (opcode 5: `LineConsumesDialog`). */
  lemma RowStep(st: State, ins: Instr, storage: string, md5: string -> string)
    ensures ins.opcode == 0 ==>
      Step(st, ins, storage, md5) == st.(rows := st.rows + [Row(ins.seqnum, KLabel, FmtLabel(storage, ins.arg))])
    ensures ins.opcode == 1 ==>
      Step(st, ins, storage, md5) == st.(rows := st.rows + [Row(ins.seqnum, KJump, FmtJump(storage, ins.arg))])
    ensures ins.opcode == 50 ==>
      Step(st, ins, storage, md5) == st.(rows := st.rows + [Row(ins.seqnum, KExpr, FmtExpression(ins.arg.exp))])
  {
    if ins.opcode == 0 {
      LabelStep(st, ins, storage, md5);
    } else if ins.opcode == 1 {
      JumpStep(st, ins, storage, md5);
    } else if ins.opcode == 50 {
      ExprStep(st, ins, storage, md5);
    }
  }

  lemma LabelStep(st: State, ins: Instr, storage: string, md5: string -> string)
    requires ins.opcode == 0
    ensures Step(st, ins, storage, md5) == st.(rows := st.rows + [Row(ins.seqnum, KLabel, FmtLabel(storage, ins.arg))])
  {
  }

  lemma JumpStep(st: State, ins: Instr, storage: string, md5: string -> string)
    requires ins.opcode == 1
    ensures Step(st, ins, storage, md5) == st.(rows := st.rows + [Row(ins.seqnum, KJump, FmtJump(storage, ins.arg))])
  {
  }

  lemma ExprStep(st: State, ins: Instr, storage: string, md5: string -> string)
    requires ins.opcode == 50
    ensures Step(st, ins, storage, md5) == st.(rows := st.rows + [Row(ins.seqnum, KExpr, FmtExpression(ins.arg.exp))])
  {
    var after := Step(st, ins, storage, md5);
    assert after.dialog == st.dialog && after.choices == st.choices;
  }


  /** The two facts of `StepAppends`, for one instruction. */
  predicate AppendsOnly(st: State, ins: Instr, storage: string, md5: string -> string)
  {
    && Step(st, ins, storage, md5).rows == st.rows + Step(st.(rows := []), ins, storage, md5).rows
    && Step(st, ins, storage, md5).(rows := []) == Step(st.(rows := []), ins, storage, md5).(rows := [])
  }

  /** One instruction appends rows that do not depend on the rows already there. */
  lemma StepAppends(st: State, ins: Instr, storage: string, md5: string -> string)
    ensures Step(st, ins, storage, md5).rows
         == st.rows + Step(st.(rows := []), ins, storage, md5).rows
    ensures Step(st, ins, storage, md5).(rows := []) == Step(st.(rows := []), ins, storage, md5).(rows := [])
  {
    if ins.opcode == 4 {
      CallAppendsOnly(st, ins, storage, md5);
    } else if ins.opcode == 51 {
      IfAppendsOnly(st, ins, storage, md5);
    } else if ins.opcode in Opcodes {
      RowAppendsOnly(st, ins, storage, md5);
    } else {
      UnhandledIsNoOp(st, ins, storage, md5);
      UnhandledIsNoOp(st.(rows := []), ins, storage, md5);
    }
  }

  lemma CallAppendsOnly(st: State, ins: Instr, storage: string, md5: string -> string)
    requires ins.opcode == 4
    ensures AppendsOnly(st, ins, storage, md5)
  {
    var e := st.(rows := []);
    CallAppends(st, ins.seqnum, ins.arg, storage);
    assert Step(st, ins, storage, md5) == CallStep(st, ins.seqnum, ins.arg, storage);
    assert Step(e, ins, storage, md5) == CallStep(e, ins.seqnum, ins.arg, storage);
  }

  lemma IfAppendsOnly(st: State, ins: Instr, storage: string, md5: string -> string)
    requires ins.opcode == 51
    ensures AppendsOnly(st, ins, storage, md5)
  {
    var rows := CondRows(ins.seqnum, ins.arg.branches, storage, md5);
    var e := st.(rows := []);
    IfStep(st, ins, storage, md5);
    IfStep(e, ins, storage, md5);
    assert Step(e, ins, storage, md5).rows == rows by {
      assert [] + rows == rows;
    }
  }

  lemma RowAppendsOnly(st: State, ins: Instr, storage: string, md5: string -> string)
    requires ins.opcode in {0, 1, 5, 50}
    ensures AppendsOnly(st, ins, storage, md5)
  {
    var e := st.(rows := []);
    var row;
    if ins.opcode == 0 {
      row := Row(ins.seqnum, KLabel, FmtLabel(storage, ins.arg));
      LabelStep(st, ins, storage, md5);
      LabelStep(e, ins, storage, md5);
    } else if ins.opcode == 1 {
      row := Row(ins.seqnum, KJump, FmtJump(storage, ins.arg));
      JumpStep(st, ins, storage, md5);
      JumpStep(e, ins, storage, md5);
    } else if ins.opcode == 5 {
      row := FmtDialogRow(ins.seqnum, st.dialog, ins.arg.text, md5);
      LineConsumesDialog(st, ins, storage, md5);
      LineConsumesDialog(e, ins, storage, md5);
    } else {
      row := Row(ins.seqnum, KExpr, FmtExpression(ins.arg.exp));
      ExprStep(st, ins, storage, md5);
      ExprStep(e, ins, storage, md5);
    }
    assert [] + [row] == [row];
  }

  lemma CallAppends(st: State, seqnum: string, arg: Arg, storage: string)
    ensures CallStep(st, seqnum, arg, storage).rows == st.rows + CallStep(st.(rows := []), seqnum, arg, storage).rows
    ensures CallStep(st, seqnum, arg, storage).(rows := []) == CallStep(st.(rows := []), seqnum, arg, storage).(rows := [])
  {
  }

  /** A run keeps the rows it starts with as a prefix and appends the rows
      of the instructions after them; what it appends does not depend on
      the rows already there. */
  lemma {:induction false} RunAppends(st: State, data: seq<Instr>, storage: string, md5: string -> string)
    ensures Run(st, data, storage, md5).rows == st.rows + Run(st.(rows := []), data, storage, md5).rows
    ensures Run(st, data, storage, md5).(rows := []) == Run(st.(rows := []), data, storage, md5).(rows := [])
    decreases data
  {
    if data != [] {
      var st' := Step(st, data[0], storage, md5);
      var e' := Step(st.(rows := []), data[0], storage, md5);
      StepAppends(st, data[0], storage, md5);
      RunAppends(st', data[1..], storage, md5);
      RunAppends(e', data[1..], storage, md5);
      assert st'.(rows := []) == e'.(rows := []);
    }
  }

  /** Running two scripts one after the other is running their concatenation. */
  lemma {:induction false} RunConcat(st: State, a: seq<Instr>, b: seq<Instr>, storage: string, md5: string -> string)
    ensures Run(st, a + b, storage, md5) == Run(Run(st, a, storage, md5), b, storage, md5)
    decreases a
  {
    if a == [] {
      assert a + b == b;
    } else {
      assert (a + b)[0] == a[0] && (a + b)[1..] == a[1..] + b;
      RunConcat(Step(st, a[0], storage, md5), a[1..], b, storage, md5);
    }
  }

  /** The rows of a script begin with the rows of any prefix of it: rows are
      appended in instruction order and never reordered. */
  lemma RowsOfPrefix(a: seq<Instr>, b: seq<Instr>, storage: string, md5: string -> string)
    ensures Rows(a, storage, md5) <= Rows(a + b, storage, md5)
  {
    RunConcat(Start, a, b, storage, md5);
    RunAppends(Run(Start, a, storage, md5), b, storage, md5);
  }

  // ----- no-ops -----

  /** An unknown opcode, or an opcode-4 call with an unknown tag, changes nothing. */
  lemma UnhandledIsNoOp(st: State, ins: Instr, storage: string, md5: string -> string)
    requires !Handled(ins)
    ensures Step(st, ins, storage, md5) == st
  {
  }

  /** Inserting an unknown instruction anywhere in a script changes neither
      the rows nor the rendered table. */
  lemma UnhandledInsertion(a: seq<Instr>, u: Instr, b: seq<Instr>, storage: string, md5: string -> string)
    requires !Handled(u)
    ensures Run(Start, a + [u] + b, storage, md5) == Run(Start, a + b, storage, md5)
    ensures Table(a + [u] + b, storage, md5) == Table(a + b, storage, md5)
  {
    var mid := Run(Start, a, storage, md5);
    RunConcat(Start, a + [u], b, storage, md5);
    RunConcat(Start, a, [u], storage, md5);
    assert Run(mid, [u], storage, md5) == Run(Step(mid, u, storage, md5), [], storage, md5);
    UnhandledIsNoOp(mid, u, storage, md5);
    RunConcat(Start, a, b, storage, md5);
  }

  // ----- the pending dialogue record -----

  /** `npc` and `vo` set one field of the pending record and touch nothing else. */
  lemma SpeakerAndVoiceSet(st: State, ins: Instr, storage: string, md5: string -> string)
    ensures IsCall(ins, "npc") ==>
      Step(st, ins, storage, md5) == st.(dialog := Dialog(ins.arg.id, st.dialog.vo))
    ensures IsCall(ins, "vo") ==>
      Step(st, ins, storage, md5) == st.(dialog := Dialog(st.dialog.npc, ins.arg.storage))
  {
  }

  /** A dialogue line emits one row built from the pending record and
      leaves the record empty; the choices are untouched. */
  lemma LineConsumesDialog(st: State, ins: Instr, storage: string, md5: string -> string)
    requires ins.opcode == 5
    ensures Step(st, ins, storage, md5)
         == State(st.rows + [FmtDialogRow(ins.seqnum, st.dialog, ins.arg.text, md5)], NoDialog, st.choices)
  {
  }

  /** `npc` followed by two dialogue lines: the first line shows the speaker,
      the second, with no new `npc`, has an empty speaker cell and no voice. */
  lemma {:induction false} SpeakerNotCarriedOver(st: State, who: Instr, first: Instr, second: Instr,
                                                 storage: string, md5: string -> string)
    requires IsCall(who, "npc") && Truthy(who.arg.id)
    requires first.opcode == 5 && second.opcode == 5
    ensures var rows := Run(st, [who, first, second], storage, md5).rows;
      && |rows| == |st.rows| + 2
      && rows[|st.rows|].kind == "<div class=\"npc\">" + who.arg.id.value + "</div>"
      && rows[|st.rows|].body == FmtDialogRow(first.seqnum, st.dialog.(npc := who.arg.id), first.arg.text, md5).body
      && rows[|st.rows| + 1] == FmtDialogRow(second.seqnum, NoDialog, second.arg.text, md5)
      && rows[|st.rows| + 1].kind == ""
    ensures Run(st, [who, first, second], storage, md5).dialog == NoDialog
  {
    var s1 := Step(st, who, storage, md5);
    var s2 := Step(s1, first, storage, md5);
    var s3 := Step(s2, second, storage, md5);
    assert [who, first, second][1..] == [first, second];
    assert [first, second][1..] == [second];
    assert Run(st, [who, first, second], storage, md5) == Run(s1, [first, second], storage, md5);
    assert Run(s1, [first, second], storage, md5) == Run(s2, [second], storage, md5);
    assert Run(s2, [second], storage, md5) == Run(s3, [], storage, md5);
  }

  // ----- the choice accumulator -----

  /** The argument objects of a run of instructions. */
  function ArgsOf(data: seq<Instr>): (r: seq<Arg>)
    ensures |r| == |data|
    ensures forall k :: 0 <= k < |data| ==> r[k] == data[k].arg
  {
    if data == [] then [] else [data[0].arg] + ArgsOf(data[1..])
  }

  /** A run of `selbutton` calls appends their argument objects, in order,
      to the accumulator and changes nothing else. */
  lemma {:induction false} ButtonsAccumulate(st: State, buttons: seq<Instr>, storage: string, md5: string -> string)
    requires forall k :: 0 <= k < |buttons| ==> IsCall(buttons[k], "selbutton")
    ensures Run(st, buttons, storage, md5) == st.(choices := st.choices + ArgsOf(buttons))
    decreases buttons
  {
    if buttons == [] {
      assert st.choices + [] == st.choices;
    } else {
      var b := buttons[0];
      var st' := st.(choices := st.choices + [b.arg]);
      ButtonStep(st, b, storage, md5);
      ButtonsAccumulate(st', buttons[1..], storage, md5);
      assert ArgsOf(buttons) == [b.arg] + ArgsOf(buttons[1..]);
      AppendAssoc(st.choices, [b.arg], ArgsOf(buttons[1..]));
    }
  }

  /** One `selbutton` appends its argument object to the accumulator. */
  lemma ButtonStep(st: State, b: Instr, storage: string, md5: string -> string)
    requires IsCall(b, "selbutton")
    ensures Step(st, b, storage, md5) == st.(choices := st.choices + [b.arg])
  {
    assert Step(st, b, storage, md5) == CallStep(st, b.seqnum, b.arg, storage);
  }

  /** `selend` emits exactly one Choices row, from the accumulated choices,
      and keeps the accumulator and the dialogue record; `dia` emits exactly
      its marker row. */
  lemma SelendAndDia(st: State, ins: Instr, storage: string, md5: string -> string)
    ensures IsCall(ins, "selend") ==>
      Step(st, ins, storage, md5) == st.(rows := st.rows + [Row(ins.seqnum, KSels, FmtChoices(storage, st.choices))])
    ensures IsCall(ins, "dia") ==>
      Step(st, ins, storage, md5) == st.(rows := st.rows + [Row(ins.seqnum, "", TxtDia)])
    ensures IsCall(ins, "selstart") ==> Step(st, ins, storage, md5) == st.(choices := [])
  {
  }

  /** A menu `selstart`, buttons, `selend` emits one Choices row linking the
      buttons' targets in order, whatever was accumulated before. */
  lemma {:induction false} ChoiceMenu(st: State, open: Instr, buttons: seq<Instr>, close: Instr,
                                      storage: string, md5: string -> string)
    requires IsCall(open, "selstart") && IsCall(close, "selend")
    requires forall k :: 0 <= k < |buttons| ==> IsCall(buttons[k], "selbutton")
    ensures Run(st, [open] + buttons + [close], storage, md5)
         == State(st.rows + [Row(close.seqnum, KSels, FmtChoices(storage, ArgsOf(buttons)))], st.dialog, ArgsOf(buttons))
  {
    var cleared := st.(choices := []);
    var filled := cleared.(choices := ArgsOf(buttons));
    RunSingle(st, open, storage, md5);
    SelendAndDia(st, open, storage, md5);
    RunConcat(st, [open], buttons, storage, md5);
    ButtonsAccumulate(cleared, buttons, storage, md5);
    assert [] + ArgsOf(buttons) == ArgsOf(buttons);
    RunConcat(st, [open] + buttons, [close], storage, md5);
    RunSingle(filled, close, storage, md5);
    SelendAndDia(filled, close, storage, md5);
  }

  /** Running a one-instruction script is one step. */
  lemma RunSingle(st: State, ins: Instr, storage: string, md5: string -> string)
    ensures Run(st, [ins], storage, md5) == Step(st, ins, storage, md5)
  {
    assert [ins][1..] == [];
  }

  /** A `selend` with nothing accumulated emits a Choices row with an empty body. */
  lemma BareSelend(close: Instr, storage: string, md5: string -> string)
    requires IsCall(close, "selend")
    ensures Rows([close], storage, md5) == [Row(close.seqnum, KSels, "")]
  {
    assert Run(Start, [close], storage, md5) == Run(Step(Start, close, storage, md5), [], storage, md5);
    ChoicesGrow(storage, [], close.arg);
  }

  // ----- conditional blocks -----

  /** One Condition row per branch, in branch order, each holding the
      escaped condition and the table of that branch's own nested pass. */
  lemma {:induction false} CondRowsPerBranch(seqnum: string, bs: seq<Branch>, storage: string, md5: string -> string)
    ensures |CondRows(seqnum, bs, storage, md5)| == |bs|
    ensures forall k :: 0 <= k < |bs| ==> CondRows(seqnum, bs, storage, md5)[k] == CondRow(seqnum, bs[k], storage, md5)
    ensures forall b :: CondRow(seqnum, b, storage, md5)
                        == Row(seqnum, KCond, FmtExpression(b.cond) + "<br/>" + Table(b.body, storage, md5))
  {
    if bs != [] {
      CondRowsPerBranch(seqnum, bs[1..], storage, md5);
      var rs := CondRows(seqnum, bs, storage, md5);
      assert rs == [CondRow(seqnum, bs[0], storage, md5)] + CondRows(seqnum, bs[1..], storage, md5);
      forall k | 0 < k < |bs|
        ensures rs[k] == CondRow(seqnum, bs[k], storage, md5)
      {
        assert rs[k] == CondRows(seqnum, bs[1..], storage, md5)[k - 1];
        assert bs[1..][k - 1] == bs[k];
      }
    }
  }

  /** What opcode 51 does to the state. */
  lemma IfStep(st: State, ins: Instr, storage: string, md5: string -> string)
    requires ins.opcode == 51
    ensures Step(st, ins, storage, md5) == st.(rows := st.rows + CondRows(ins.seqnum, ins.arg.branches, storage, md5))
  {
    var rows := CondRows(ins.seqnum, ins.arg.branches, storage, md5);
    assert Step(st, ins, storage, md5) == st.(rows := st.rows + rows);
  }

  /** A conditional block appends exactly one row per branch and leaves the
      outer pending record and choices alone; the rows it appends are the
      same whatever the outer state was. */
  lemma IfBlock(st: State, other: State, ins: Instr, storage: string, md5: string -> string)
    requires ins.opcode == 51
    ensures var after := Step(st, ins, storage, md5);
      && |after.rows| == |st.rows| + |ins.arg.branches|
      && after.dialog == st.dialog && after.choices == st.choices
      && after.rows[|st.rows|..] == Step(other, ins, storage, md5).rows[|other.rows|..]
  {
    var rows := CondRows(ins.seqnum, ins.arg.branches, storage, md5);
    CondRowsPerBranch(ins.seqnum, ins.arg.branches, storage, md5);
    IfStep(st, ins, storage, md5);
    IfStep(other, ins, storage, md5);
    assert (st.rows + rows)[|st.rows|..] == rows;
    assert (other.rows + rows)[|other.rows|..] == rows;
  }

  /** The `<tr>` elements of the table, in row order. */
  function RowsHtml(rows: seq<Row>): string
  {
    Join(RowHtmls(rows), "")
  }

  /** Rendering one more row appends its `<tr>` to the rendered rows. */
  lemma RowHtmlsSnoc(rows: seq<Row>, row: Row)
    ensures RowHtmls(rows + [row]) == RowHtmls(rows) + [RowHtml(row)]
  {
    var all := RowHtmls(rows + [row]);
    assert |all| == |rows| + 1;
    forall k | 0 <= k < |rows|
      ensures all[k] == RowHtmls(rows)[k]
    {
      assert (rows + [row])[k] == rows[k];
    }
    assert all[|rows|] == RowHtml(row) by {
      assert (rows + [row])[|rows|] == row;
    }
  }

  /** The table of a script is `<table>`, then one `<tr>` per row in order,
      then `</table>`: no rows give no `<tr>`, and a row more adds its
      `<tr>` (`RowHtml`) after the others. */
  lemma {:induction false} TableRows(rows: seq<Row>, row: Row)
    ensures RenderTable(rows) == "<table>" + RowsHtml(rows) + "</table>"
    ensures RowsHtml([]) == ""
    ensures RowsHtml(rows + [row]) == RowsHtml(rows) + RowHtml(row)
  {
    RowHtmlsSnoc(rows, row);
    JoinEmptyAppend(RowHtmls(rows), [RowHtml(row)]);
  }
}
