/**
 * The HTML fragment builders of 0-common.js: anchor names, labels, jumps,
 * choice lists, dialogue rows, expressions, and the hashed file name of a
 * voice-over clip. Node's MD5 digest is passed in as `md5`.
 */
module Format {
  import opened JsValues
  import opened Text
  import opened Escape
  import opened ScriptData

  /** Kind labels and the dialogue marker (0-common.js:5-11). */
  const KJump := "跳转"
  const KCond := "条件"
  const KSels := "选择"
  const KExpr := "表达式"
  const KLabel := "标签"
  const TxtDia := "<div class=\"dia\">对话开始</div>"

  /** `fmtAnchorName`: `storage-target` with every `*` turned into `.`. */
  function AnchorName(storage: string, target: string): (r: string)
    ensures |r| == |storage| + |target| + 1
    ensures forall i :: 0 <= i < |r| ==>
      r[i] == if (storage + "-" + target)[i] == '*' then '.' else (storage + "-" + target)[i]
    ensures '*' !in r
    ensures ReplaceAll(r, '*', ".") == r
  {
    var joined := storage + "-" + target;
    ReplaceCharAt(joined, '*', '.');
    ReplaceAll(joined, '*', ".")
  }

  /** The visible text of a label: `(storage) id`, then ` title` when the
      title is truthy. */
  function LabelText(storage: string, arg: Arg): string
  {
    "(" + storage + ") " + Show(arg.id) + (if Truthy(arg.title) then " " + arg.title.value else "")
  }

  /** `fmtLabel`: a named anchor around the label text. */
  function FmtLabel(storage: string, arg: Arg): string
  {
    "<a name=\"" + AnchorName(storage, Show(arg.id)) + "\">" + LabelText(storage, arg) + "</a>"
  }

  /** A same-document link to `anchor` showing `text`. */
  function Link(anchor: string, text: string): string
  {
    "<a href=\"#" + anchor + "\">" + text + "</a>"
  }

  /** `fmtJump`: a link into the target storage, or into the current one
      when the jump names none (or an empty one). */
  function FmtJump(storage: string, arg: Arg): (r: string)
    ensures Truthy(arg.storage) ==>
      r == Link(AnchorName(arg.storage.value, Show(arg.target)), arg.storage.value + " " + Show(arg.target))
    ensures !Truthy(arg.storage) ==>
      r == Link(AnchorName(storage, Show(arg.target)), "(" + storage + ") " + Show(arg.target))
  {
    var textStorage := if Truthy(arg.storage) then arg.storage.value else "(" + storage + ")";
    var text := textStorage + " " + Show(arg.target);
    Link(AnchorName(if Truthy(arg.storage) then arg.storage.value else storage, Show(arg.target)), text)
  }

  /** `choices.map(arg => fmtJump(storage, arg))`. */
  function JumpLinks(storage: string, choices: seq<Arg>): (r: seq<string>)
    ensures |r| == |choices|
    ensures forall k :: 0 <= k < |choices| ==> r[k] == FmtJump(storage, choices[k])
  {
    if choices == [] then []
    else [FmtJump(storage, choices[0])] + JumpLinks(storage, choices[1..])
  }

  /** `fmtChoices`: the jump links of the choices, joined by line breaks. */
  function FmtChoices(storage: string, choices: seq<Arg>): string
  {
    Join(JumpLinks(storage, choices), "<br/>")
  }

  /** `encryptFilename`: keep the directory part of the path, up to and
      including its last `/`, and replace the rest by the digest of the
      whole path. */
  function EncryptFilename(fullpath: string, md5: string -> string): (r: string)
    ensures |md5(fullpath)| <= |r| <= |fullpath| + |md5(fullpath)|
    ensures r[..|r| - |md5(fullpath)|] == fullpath[..|r| - |md5(fullpath)|]
    ensures r[|r| - |md5(fullpath)|..] == md5(fullpath)
    ensures var dir := |r| - |md5(fullpath)|;
      (dir == 0 || fullpath[dir - 1] == '/') && '/' !in fullpath[dir..]
  {
    var slash := LastIndexOf(fullpath, '/');
    var dir := if slash == -1 then 0 else slash + 1;
    assert forall k :: 0 <= k < |fullpath[dir..]| ==> fullpath[dir..][k] == fullpath[dir + k];
    fullpath[..dir] + md5(fullpath)
  }

  /** `fmtVOEncryptedName`: the hashed name of the clip `se/<vo>.m4a`,
      which always lies under the `se/` directory. */
  function FmtVOEncryptedName(vo: string, md5: string -> string): (r: string)
    ensures |r| >= 3 && r[..3] == "se/"
    ensures |r| >= |md5("se/" + vo + ".m4a")|
    ensures r[|r| - |md5("se/" + vo + ".m4a")|..] == md5("se/" + vo + ".m4a")
  {
    var path := "se/" + vo + ".m4a";
    assert path[2] == '/';
    var r := EncryptFilename(path, md5);
    assert r[..3] == path[..3];
    r
  }

  /** `fmtDialogRow`: the speaker block when the pending speaker is truthy;
      the text block carries the `vo` class and a click handler when the
      pending voice-over is truthy, and otherwise the stringified falsy
      value itself after `text` in its class attribute. */
  function FmtDialogRow(seqnum: string, dialog: Dialog, text: Option<string>, md5: string -> string): (r: Row)
    ensures r.seqnum == seqnum
    ensures r.kind == "" <==> !Truthy(dialog.npc)
    ensures Truthy(dialog.npc) ==> r.kind == "<div class=\"npc\">" + dialog.npc.value + "</div>"
    ensures Truthy(dialog.vo) ==>
      r.body == "<div class=\"text" + " vo" + "\" " + " onclick=\"vo('" + FmtVOEncryptedName(dialog.vo.value, md5) + "')\""
                + ">" + Show(text) + "</div>"
    ensures !Truthy(dialog.vo) ==>
      r.body == "<div class=\"text" + (if dialog.vo == None then "undefined" else "") + "\" " + ">" + Show(text) + "</div>"
  {
    var npcText := if Truthy(dialog.npc) then "<div class=\"npc\">" + dialog.npc.value + "</div>" else "";
    var voClick := if Truthy(dialog.vo) then " onclick=\"vo('" + FmtVOEncryptedName(dialog.vo.value, md5) + "')\"" else "";
    var voClass := if Truthy(dialog.vo) then " vo" else Show(dialog.vo);
    Row(seqnum, npcText, "<div class=\"text" + voClass + "\" " + voClick + ">" + Show(text) + "</div>")
  }

  const ExpOpen := "<div class=\"exp\">"
  const ExpClose := "</div>"

  /** `fmtExpression`: the escaped statement inside an `exp` block; no
      markup character of the statement survives between the tags. */
  function FmtExpression(exp: Option<string>): (r: string)
    ensures |r| >= |ExpOpen| + |ExpClose|
    ensures r[..|ExpOpen|] == ExpOpen && r[|r| - |ExpClose|..] == ExpClose
    ensures r[|ExpOpen|..|r| - |ExpClose|] == Escaped(Show(exp))
    ensures forall c :: c in Markup ==> c !in r[|ExpOpen|..|r| - |ExpClose|]
  {
    ExpOpen + EscapeHtml(Show(exp)) + ExpClose
  }

  /** A label and a jump to it agree on the anchor: whatever the current
      storage `here` of the jump, the jump into storage `s` links to the
      name the label in `s` defines, and that name has no `*`. */
  lemma LabelJumpAgree(s: string, def: Arg, jump: Arg, here: string)
    requires s != "" && jump.storage == Some(s) && jump.target == def.id
    ensures var a := AnchorName(s, Show(def.id));
      && '*' !in a
      && FmtLabel(s, def) == "<a name=\"" + a + "\">" + LabelText(s, def) + "</a>"
      && FmtJump(here, jump) == "<a href=\"#" + a + "\">" + s + " " + Show(def.id) + "</a>"
  {
  }

  /** A jump without a target storage stays in the current storage and
      shows it in parentheses. */
  lemma JumpWithinStorage(here: string, jump: Arg)
    requires !Truthy(jump.storage)
    ensures FmtJump(here, jump) ==
      "<a href=\"#" + AnchorName(here, Show(jump.target)) + "\">(" + here + ") " + Show(jump.target) + "</a>"
  {
  }

  /** The label text carries the title exactly when the title is truthy. */
  lemma LabelTitleShown(storage: string, arg: Arg)
    ensures Truthy(arg.title) ==>
      LabelText(storage, arg) == "(" + storage + ") " + Show(arg.id) + " " + arg.title.value
    ensures !Truthy(arg.title) ==> LabelText(storage, arg) == "(" + storage + ") " + Show(arg.id)
  {
  }

  /** `fmtChoices` yields nothing for no choices, and each further choice
      adds a line break and its jump link at the end. */
  lemma {:induction false} ChoicesGrow(storage: string, choices: seq<Arg>, c: Arg)
    ensures FmtChoices(storage, []) == ""
    ensures FmtChoices(storage, [c]) == FmtJump(storage, c)
    ensures choices != [] ==>
      FmtChoices(storage, choices + [c]) == FmtChoices(storage, choices) + "<br/>" + FmtJump(storage, c)
  {
    if choices != [] {
      JumpLinksSnoc(storage, choices, c);
      JoinSnoc(JumpLinks(storage, choices), FmtJump(storage, c), "<br/>");
    }
  }

  /** One choice more adds its jump link at the end. */
  lemma {:induction false} JumpLinksSnoc(storage: string, choices: seq<Arg>, c: Arg)
    ensures JumpLinks(storage, choices + [c]) == JumpLinks(storage, choices) + [FmtJump(storage, c)]
  {
    if choices == [] {
      assert choices + [c] == [c];
    } else {
      var head := FmtJump(storage, choices[0]);
      assert (choices + [c])[0] == choices[0] && (choices + [c])[1..] == choices[1..] + [c];
      JumpLinksSnoc(storage, choices[1..], c);
      AppendAssoc([head], JumpLinks(storage, choices[1..]), [FmtJump(storage, c)]);
    }
  }
}
