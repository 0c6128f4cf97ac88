# Visual-novel script to HTML table converter, modelled in Dafny

This project models the core of `0-common.js`, the converter that turns one
visual-novel script (a list of opcode-tagged instructions already decoded
from JSON) into an HTML table: labels, jumps, dialogue lines with their
speaker and voice-over clip, expressions, choice menus and conditional
blocks, one row each.

- `js_values.dfy` (`JsValues`): a payload field is `None` (the key is absent,
  so the script reads `undefined`) or `Some(s)`; `Truthy` and `Show` give
  JavaScript's truthiness and template-literal stringification.
- `text.dfy` (`Text`): global single-character `replace`, `Array.join` and
  `lastIndexOf`.
- `escape.dfy` (`Escape`): `escapeHtml` as its five passes, a single-pass
  reference definition proved equal to them, and an unescaping function
  that inverts it on text whose `&`s start no entity.
- `script_data.dfy` (`ScriptData`): instructions, argument objects,
  conditional branches, table rows and the pending dialogue record.
- `format.dfy` (`Format`): the fragment builders `fmtAnchorName`,
  `fmtLabel`, `fmtJump`, `fmtChoices`, `encryptFilename`,
  `fmtVOEncryptedName`, `fmtDialogRow` and `fmtExpression`.
- `interpreter.dfy` (`Interpreter`): `scriptToHTML`. `Step`/`Run` state the
  pass as a fold over the instructions. `ScriptToHtml` is the loop itself,
  with the row list, the dialogue record and the choice list as local
  variables; `CondBlockRows` is the inner loop over the branches of a
  conditional block, which recurses into `ScriptToHtml` for each nested
  script. Both are proved against the fold: `ScriptToHtml` returns `Table`
  of its input.
- `interpreter_props.dfy` (`ScriptProperties`): what a pass guarantees,
  proved about `Step`/`Run`.

Behaviour of the code that the model keeps as written:

- The `selend` case ends with `break` (0-common.js:91). So a `selend` emits
  only its Choices row and never falls through to also emit the `dia`
  marker.
- The `&` lookahead `\w+;` (0-common.js:15) does not match numeric
  entities, because `\w` does not match `#`. So `'` escapes to `&#39;` and
  that escapes again to `&amp;#39;`; only named entities such as `&amp;`
  are left alone (`Escape.EscapeNotIdempotent`).
- `${vo && ' vo'}` prints the falsy value itself. A dialogue line with no
  pending voice-over gets the class `textundefined`, and one whose `vo`
  is the empty string gets `text`.
- A `selend` does not clear the choice list; only `selstart` does.
- Node's MD5 digest is a parameter `md5: string -> string`.
  `encryptFilename`'s own logic, which keeps the directory up to the last
  `/`, is modelled.

## Model

| member | source | states |
|---|---|---|
| `Text.LastIndexOf` | 0-common.js:23 | the result is -1 or an index holding the character, and no later index holds it |
| `Escape.EntityTailMeans` | 0-common.js:15 | the lookahead holds exactly when the text continues with one or more of [A-Za-z0-9_] and then `;` |
| `Escape.Escaped` | 0-common.js:13-20 | single-pass reference: the output has no `<`, `>`, `'` or `"`; text without `& < > ' "` is returned unchanged |
| `Escape.EscapeHtml` | 0-common.js:13-20 | the five passes (`EscapeAmp`, then `LaterPasses`) leave no `<`, `>`, `'` or `"` (so no `<script>` survives), leave text without `& < > ' "` unchanged, and equal the single-pass reference |
| `Escape.EscapeHtmlIsSinglePass` | 0-common.js:13-20 | the `&` pass `EscapeAmp` followed by the four character passes `LaterPasses` equals mapping each character in place, with the `&` lookahead taken in the original text |
| `Escape.EscapeChar` | 0-common.js:15-19 | an `&` becomes `&amp;` exactly when the lookahead fails and stays `&` exactly when it holds; each markup character becomes its entity; other characters are kept |
| `Escape.NamedEntityKept` | 0-common.js:15 | an `&` that begins `name;` with a non-empty word-character name is copied as it is |
| `Escape.EscapeNotIdempotent` | 0-common.js:15-18 | `'` escapes to `&#39;`, and `&#39;` escapes to `&amp;#39;` |
| `Escape.UnescapeEscaped` | 0-common.js:13-20 | on text whose `&`s start no entity, decoding the five entities gives back the original text |
| `Escape.EscapeMergesEntities` | 0-common.js:15 | `&` and `&amp;` both escape to `&amp;`, so escaping is not injective |
| `Format.AnchorName` | 0-common.js:38-40 | its length is that of storage plus target plus one; each position is that of `storage-target` with `*` turned into `.`; no `*` remains, and replacing `*` again changes nothing |
| `Format.FmtJump` | 0-common.js:48-53 | with a truthy target storage the link goes to that storage's anchor and shows it; otherwise it goes to the current storage's anchor and shows `(current)` |
| `Format.LabelJumpAgree` | 0-common.js:38-53 | the anchor a label (`FmtLabel`) in storage S names is the fragment of a jump into S, from any current storage, and has no `*` |
| `Format.JumpWithinStorage` | 0-common.js:50-52 | a jump with an absent or empty target storage links to the current storage's anchor and shows `(current) target` |
| `Format.LabelTitleShown` | 0-common.js:44 | the label text of `FmtLabel` is `(S) id`, followed by ` title` exactly when the title is truthy |
| `Format.JumpLinks` | 0-common.js:56 | one jump link per choice, the k-th built from the k-th choice |
| `Format.ChoicesGrow` | 0-common.js:55-57 | `FmtChoices`: no choices give the empty string; one gives its link; each further choice adds `<br/>` and its link at the end |
| `Format.EncryptFilename` | 0-common.js:22-26 | the result is the path up to and including its last `/` (empty if none), followed by the digest of the whole path |
| `Format.FmtVOEncryptedName` | 0-common.js:59-61 | a clip's hashed name lies under `se/` and ends with the digest of `se/<vo>.m4a` |
| `Format.FmtDialogRow` | 0-common.js:63-69 | the speaker cell is empty exactly when the speaker is falsy and otherwise an `npc` block; a truthy voice-over gives the `vo` class and a click handler for its hashed clip; otherwise the class is `text` followed by the printed falsy value |
| `Format.FmtExpression` | 0-common.js:71-73 | the statement is wrapped in an `exp` block, the part between the tags is its escaped text, and no markup character occurs there |
| `Interpreter.RowHtml` | 0-common.js:108 | a row renders as `<tr><td>` then its three cells separated by `</td><td>`, then `</td></tr>` |
| `Interpreter.RowHtmls` | 0-common.js:108 | one rendered row per row, in order |
| `Interpreter.ScriptToHtml` | 0-common.js:75-110 | the loop with its row list, dialogue record and choice list returns the table of the rows of the fold `Run` from the empty state, whose step `Step` is the `switch` and `CallStep` its opcode-4 dispatch |
| `Interpreter.CondBlockRows` | 0-common.js:101-104 | the branch loop of a conditional block returns, in branch order, one Condition row per branch holding the escaped condition, `<br/>` and the table of a nested pass over the branch's script (`CondRows`) |
| `ScriptProperties.RowStep` | 0-common.js:80-100 | in `Step`, a label, a jump and an expression each append exactly their one row and change nothing else |
| `ScriptProperties.StepAppends` | 0-common.js:79-106 | each instruction (`Step`, with `CallStep` for opcode 4) only appends rows, and what it appends and the new record and choices do not depend on the rows already there |
| `ScriptProperties.RunAppends` | 0-common.js:76-106 | a pass keeps the rows it starts with as a prefix and appends rows that do not depend on them |
| `ScriptProperties.RunConcat` | 0-common.js:79-106 | running a concatenation is running its parts one after the other, state carried across |
| `ScriptProperties.RowsOfPrefix` | 0-common.js:79-106 | the rows of a prefix of a script are a prefix of the script's rows: rows are added in instruction order and never reordered |
| `ScriptProperties.UnhandledIsNoOp` | 0-common.js:79-106 | an opcode other than 0/1/4/5/50/51, or an opcode-4 tag other than the six handled, changes neither rows, record nor choices |
| `ScriptProperties.UnhandledInsertion` | 0-common.js:79-109 | inserting such an instruction anywhere leaves the final state and the rendered table unchanged |
| `ScriptProperties.SpeakerAndVoiceSet` | 0-common.js:87-88 | `npc` sets the pending speaker to the payload `id`, `vo` sets the pending voice-over to the payload `storage`; nothing else changes |
| `ScriptProperties.LineConsumesDialog` | 0-common.js:94-97 | a dialogue line appends one row built from the pending record, empties the record and keeps the choices |
| `ScriptProperties.SpeakerNotCarriedOver` | 0-common.js:87-97 | after `npc` and two lines, the first row shows the speaker, the second has an empty speaker cell and no voice-over, and the record is empty |
| `ScriptProperties.ButtonsAccumulate` | 0-common.js:90 | consecutive `selbutton`s append their argument objects to the choice list in order and change nothing else |
| `ScriptProperties.SelendAndDia` | 0-common.js:89-92 | `selstart` empties the choice list; `selend` appends exactly one Choices row from the list and keeps it; `dia` appends exactly the marker row |
| `ScriptProperties.ChoiceMenu` | 0-common.js:89-91 | `selstart`, buttons, `selend` append one Choices row linking the buttons in order, whatever was accumulated before |
| `ScriptProperties.BareSelend` | 0-common.js:76-91 | a script that is a lone `selend` gives one Choices row with an empty body |
| `ScriptProperties.CondRowsPerBranch` | 0-common.js:101-105 | a conditional block gives one Condition row per branch in order, each the escaped condition, `<br/>` and the table of that branch's script |
| `ScriptProperties.IfStep` | 0-common.js:101-105 | opcode 51 appends the branch rows and changes nothing else |
| `ScriptProperties.IfBlock` | 0-common.js:101-105 | a block with n branches adds exactly n rows, keeps the outer record and choices, and adds the same rows whatever the outer state |
| `ScriptProperties.TableRows` | 0-common.js:107-109 | the table is `<table>`, the rows' `<tr>` elements, then `</table>`; no rows give no `<tr>`; one row more appends its `<tr>` (`RowHtml`) after the others |

## Left out

- `loadScriptFile`, `storageToHTML` and `encryptScriptName` (0-common.js:28-36, 112-115) read and parse files. The model starts from instructions already decoded.
- The MD5 digest from Node's `crypto` (0-common.js:24) is not computed. It is the parameter `md5`.
- `runForGameSymMel` (0-common.js:117-225) writes the document shell through a write stream: fixed style sheet, headings, per-file sections and the browser playback script. It is I/O and template text.
- JSON coercions are not modelled. Payload fields are strings or absent. The sequence marker is the string it prints as. A numeric payload such as a title `0`, which JavaScript treats as falsy, is not represented. `String(html)` in `escapeHtml` is covered only for absent values, which print as `undefined`.
- Malformed instructions are not modelled. A missing argument object, or a conditional block whose `''` key is not a list, makes the script throw. In the model the key `''` is two fields: the sub-command tag (for opcode 4) and the branch list (for opcode 51).
- Only the interpreter variant in 0-common.js is modelled. A second game's interpreter, with a different opcode table, is not part of this model.
