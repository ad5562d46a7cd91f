/**
 * The task form's editing helpers: the toolbar buttons that wrap the selected
 * part of the description in a Markdown marker or append a list item, and the
 * rule that disables the submit button.
 */
module RenderForm {
  import opened Wrappers
  import opened Tasks

  datatype Style = Bold | Italic | Strikethrough

  /** The Markdown marker each toolbar button writes on both sides of the selection. */
  function Marker(style: Style): (m: string)
    ensures |m| == if style == Italic then 1 else 2
  {
    match style
    case Bold => "**"
    case Italic => "*"
    case Strikethrough => "~~"
  }

  /**
   * The description after wrapping the selection `[start, end)` in `marker`:
   * the text before, the marker, the selection, the marker, the text after.
   */
  function Wrap(description: string, start: nat, end: nat, marker: string): (r: string)
    requires start <= end <= |description|
    ensures |r| == |description| + 2 * |marker|
    ensures r[..start] == description[..start]
    ensures r[start..start + |marker|] == marker
    ensures r[start + |marker|..end + |marker|] == description[start..end]
    ensures r[end + |marker|..end + 2 * |marker|] == marker
    ensures r[end + 2 * |marker|..] == description[end..]
  {
    description[..start] + marker + description[start..end] + marker + description[end..]
  }

  /** The bold, italic and strikethrough buttons. */
  function ApplyStyle(description: string, start: nat, end: nat, style: Style): (r: string)
    requires start <= end <= |description|
    ensures |r| == |description| + 2 * |Marker(style)|
    ensures r[..start] == description[..start]
    ensures r[end + 2 * |Marker(style)|..] == description[end..]
  {
    Wrap(description, start, end, Marker(style))
  }

  /** Taking both markers out of a wrapped description gives back the original. */
  lemma UnwrapRestores(description: string, start: nat, end: nat, marker: string)
    requires start <= end <= |description|
    ensures var r := Wrap(description, start, end, marker);
      r[..start] + r[start + |marker|..end + |marker|] + r[end + 2 * |marker|..] == description
  {
    assert description == description[..start] + description[start..end] + description[end..];
  }

  /** An empty selection puts the two markers side by side at the cursor. */
  lemma EmptySelection(description: string, cursor: nat, marker: string)
    requires cursor <= |description|
    ensures Wrap(description, cursor, cursor, marker) == description[..cursor] + marker + marker + description[cursor..]
  {
    assert description[cursor..cursor] == [];
  }

  datatype ListKind = Bulleted | Numbered

  /**
   * What a list button appends. The bulleted one is a newline, the three
   * characters U+00E2 U+20AC U+00A2 (a bullet whose UTF-8 bytes were read as
   * Windows-1252) and a space.
   */
  function ListSuffix(kind: ListKind): (s: string)
    ensures |s| == if kind == Bulleted then 5 else 4
    ensures s[0] == '\n'
  {
    match kind
    case Bulleted => "\n\U{00E2}\U{20AC}\U{00A2} "
    case Numbered => "\n1. "
  }

  /** The list buttons append their suffix at the end, whatever is selected. */
  function AppendListItem(description: string, kind: ListKind): (r: string)
    ensures |r| == |description| + |ListSuffix(kind)|
    ensures r[..|description|] == description
    ensures r[|description|..] == ListSuffix(kind)
  {
    description + ListSuffix(kind)
  }

  /**
   * The submit button is disabled when a required field is the empty string.
   * A closed-enumeration status is never empty; unlike the submit handler,
   * nothing is trimmed here.
   */
  predicate SubmitDisabled(title: string, dueDate: string, category: Option<Category>, status: Status)
  {
    title == "" || dueDate == "" || category.None?
  }
}
