/**
 * The markdown editor component: the toolbar's insertion of markdown around
 * the selected text, the preview toggle, and the guard in front of the
 * markdown renderer.
 */
module MarkdownEditor {
  import opened Wrappers
  import opened JsText

  /** The textarea's `selectionStart` and `selectionEnd`. */
  datatype Selection = Selection(start: int, end: int)

  /** `selected || placeholder` */
  function OrPlaceholder(selected: string, placeholder: string): (r: string)
    ensures r != ""
    ensures selected != "" ==> r == selected
    ensures selected == "" ==> r == placeholder
    requires placeholder != ""
  {
    if selected != "" then selected else placeholder
  }

  /** `lines.map(line => prefix + line)` */
  function PrefixLines(lines: seq<string>, prefix: string): (r: seq<string>)
    ensures |r| == |lines|
    ensures forall i :: 0 <= i < |lines| ==> r[i] == prefix + lines[i]
  {
    seq(|lines|, i requires 0 <= i < |lines| => prefix + lines[i])
  }

  /** The text the toolbar button `kind` puts in place of `selected`. */
  function InsertText(kind: string, selected: string): string {
    if kind == "bold" then "**" + OrPlaceholder(selected, "bold text") + "**"
    else if kind == "italic" then "*" + OrPlaceholder(selected, "italic text") + "*"
    else if kind == "heading" then "## " + OrPlaceholder(selected, "Heading")
    else if kind == "link" then "[" + OrPlaceholder(selected, "link text") + "](url)"
    else if kind == "image" then "![" + OrPlaceholder(selected, "alt text") + "](image-url)"
    else if kind == "code" then
      if '\n' in selected then "```\n" + selected + "\n```" else "`" + OrPlaceholder(selected, "code") + "`"
    else if kind == "list" then
      if selected != "" then Join(PrefixLines(Split(selected, '\n'), "- "), '\n') else "- List item"
    else if kind == "quote" then
      if selected != "" then Join(PrefixLines(Split(selected, '\n'), "> "), '\n') else "> Quote"
    else ""
  }

  /** `value.substring(0, start) + insertText + value.substring(end)` */
  function NewValue(value: string, start: int, end: int, insertText: string): string {
    Substring(value, 0, start) + insertText + Substring(value, end, |value|)
  }

  /** For a selection inside the text, the new value is the text with the
      selection replaced: everything before `start` and from `end` on is kept,
      and the inserted text ends where the caret is put, `start + |insertText|`. */
  lemma NewValueSplices(value: string, start: int, end: int, insertText: string)
    requires 0 <= start <= end <= |value|
    ensures NewValue(value, start, end, insertText) == value[..start] + insertText + value[end..]
    ensures NewValue(value, start, end, insertText)[..start] == value[..start]
    ensures NewValue(value, start, end, insertText)[start..start + |insertText|] == insertText
    ensures NewValue(value, start, end, insertText)[start + |insertText|..] == value[end..]
    ensures |NewValue(value, start, end, insertText)| == |value| - (end - start) + |insertText|
  {
  }

  /** The five wrapping buttons put their opening and closing marks around the
      selection, or around their placeholder when nothing is selected. */
  lemma WrappingKinds(selected: string)
    ensures InsertText("bold", selected) == "**" + (if selected == "" then "bold text" else selected) + "**"
    ensures InsertText("italic", selected) == "*" + (if selected == "" then "italic text" else selected) + "*"
    ensures InsertText("heading", selected) == "## " + (if selected == "" then "Heading" else selected)
    ensures InsertText("link", selected) == "[" + (if selected == "" then "link text" else selected) + "](url)"
    ensures InsertText("image", selected) == "![" + (if selected == "" then "alt text" else selected) + "](image-url)"
  {
  }

  /** A selection spanning lines becomes a fenced block; any other selection
      inline code, with `code` standing in for an empty one. */
  lemma CodeKind(selected: string)
    ensures '\n' in selected ==> InsertText("code", selected) == "```\n" + selected + "\n```"
    ensures '\n' !in selected && selected != "" ==> InsertText("code", selected) == "`" + selected + "`"
    ensures selected == "" ==> InsertText("code", selected) == "`code`"
  {
  }

  /** Prefixing each line with a prefix free of line breaks keeps every line
      free of line breaks. */
  lemma PrefixedLinesUnbroken(lines: seq<string>, prefix: string)
    requires '\n' !in prefix
    requires forall k :: 0 <= k < |lines| ==> '\n' !in lines[k]
    ensures forall k :: 0 <= k < |PrefixLines(lines, prefix)| ==> '\n' !in PrefixLines(lines, prefix)[k]
  {
  }

  /** List and quote put their prefix in front of every line of a non-empty
      selection: the result has as many lines as the selection, line `i` being
      the prefix followed by line `i` of the selection. */
  lemma {:induction false} LinePrefixKinds(kind: string, selected: string)
    requires kind == "list" || kind == "quote"
    requires selected != ""
    ensures var prefix := if kind == "list" then "- " else "> ";
      && |Split(InsertText(kind, selected), '\n')| == |Split(selected, '\n')|
      && Split(InsertText(kind, selected), '\n') == PrefixLines(Split(selected, '\n'), prefix)
  {
    var prefix := if kind == "list" then "- " else "> ";
    var lines := PrefixLines(Split(selected, '\n'), prefix);
    PrefixedLinesUnbroken(Split(selected, '\n'), prefix);
    SplitJoin(lines, '\n');
  }

  /** With nothing selected, list and quote insert one placeholder line. */
  lemma LinePrefixPlaceholders()
    ensures InsertText("list", "") == "- List item"
    ensures InsertText("quote", "") == "> Quote"
    ensures '\n' !in InsertText("list", "") && '\n' !in InsertText("quote", "")
  {
  }

  /** A button the switch does not know inserts nothing, so the selection is
      deleted. */
  lemma UnknownKindDeletes(kind: string, value: string, start: int, end: int)
    requires kind !in {"bold", "italic", "heading", "link", "image", "code", "list", "quote"}
    requires 0 <= start <= end <= |value|
    ensures InsertText(kind, Substring(value, start, end)) == ""
    ensures NewValue(value, start, end, InsertText(kind, Substring(value, start, end))) == value[..start] + value[end..]
  {
    NewValueSplices(value, start, end, "");
  }

  /** `getMarkdownHtml`: `render` stands for `marked.parse`, which is only
      reached for a non-empty input. */
  function GetMarkdownHtml(markdown: string, render: string -> string): (html: string)
    ensures markdown == "" ==> html == ""
    ensures markdown != "" ==> html == render(markdown)
  {
    if markdown == "" then "" else render(markdown)
  }

  /** The component's state: its `value` input, the preview switch, the
      textarea's selection (None until the view holds the textarea), what it
      has emitted on `valueChange`, and where it last put the caret. */
  class MarkdownEditorComponent {
    var value: string
    var showPreview: bool
    var editor: Option<Selection>
    var emitted: seq<string>
    var caret: Option<int>

    constructor (value: string, editor: Option<Selection>)
      ensures this.value == value && this.editor == editor
      ensures showPreview && emitted == [] && caret == None
    {
      this.value := value;
      this.editor := editor;
      showPreview := true;
      emitted := [];
      caret := None;
    }

    /** `togglePreview` */
    method TogglePreview()
      modifies this`showPreview
      ensures showPreview == !old(showPreview)
    {
      showPreview := !showPreview;
    }

    /** `onInput`: the textarea's text is emitted as it is. */
    method OnInput(text: string)
      modifies this`emitted
      ensures emitted == old(emitted) + [text]
    {
      emitted := emitted + [text];
    }

    /** `insertMarkdown`: emits the new value and places the caret after the
        inserted text; `value` itself waits for the parent to bind it back. */
    method InsertMarkdown(kind: string)
      modifies this`emitted, this`caret
      ensures editor.None? ==> emitted == old(emitted) && caret == old(caret)
      ensures editor.Some? ==>
        var selected := Substring(value, editor.value.start, editor.value.end);
        var insertText := InsertText(kind, selected);
        && emitted == old(emitted) + [NewValue(value, editor.value.start, editor.value.end, insertText)]
        && caret == Some(editor.value.start + |insertText|)
    {
      if editor.None? {
        return;
      }
      var start, end := editor.value.start, editor.value.end;
      var selectedText := Substring(value, start, end);
      var insertText := InsertText(kind, selectedText);
      var newValue := Substring(value, 0, start) + insertText + Substring(value, end, |value|);
      emitted := emitted + [newValue];
      caret := Some(start + |insertText|);
    }
  }

  /** Two toggles bring the preview switch back to where it was. */
  method ToggleTwice(c: MarkdownEditorComponent)
    modifies c
    ensures c.showPreview == old(c.showPreview)
    ensures c.value == old(c.value) && c.emitted == old(c.emitted)
  {
    c.TogglePreview();
    c.TogglePreview();
  }
}
