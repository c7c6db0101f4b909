/*
 * The rule all three screens apply when an entry of the tags list is
 * double-clicked: a template name puts that template's tags in the input
 * box, any other entry is added to what the box already holds.
 */
module Compose {
  import opened Text

  /** The new text of the input box after double-clicking key while the box
      holds current. An empty key leaves the box alone. */
  function ComposeInput(templates: map<string, seq<string>>, key: string, current: string): (r: string)
    ensures key == [] ==> r == current
    ensures key != [] && key in templates ==> Split(r) == Split(Join(templates[key], Delimiter))
    ensures key != [] && key !in templates ==> EndsWith(r, key)
  {
    if key == [] then current
    else if key in templates then Join(templates[key], Delimiter)
    else if current == [] then key
    else current + Delimiter + key
  }

  /** Picking a template brings back exactly its tags, when none of them
      holds the delimiter. */
  lemma TemplateTokens(templates: map<string, seq<string>>, key: string, current: string)
    requires key != [] && key in templates && templates[key] != []
    requires forall t :: t in templates[key] ==> !HasDelimiter(t)
    ensures Split(ComposeInput(templates, key, current)) == templates[key]
  {
    SplitJoin(templates[key]);
  }

  /** Picking a plain tag keeps the tokens already typed and adds the tag as
      the last one. */
  lemma AppendedToken(templates: map<string, seq<string>>, key: string, current: string)
    requires key != [] && key !in templates && !HasDelimiter(key)
    ensures Split(ComposeInput(templates, key, current))
         == (if current == [] then [] else Split(current)) + [key]
  {
    SplitNoDelimiter(key);
    if current != [] {
      SplitAppend(current, key);
    }
  }

  /** The edit screen has two input boxes: the tags box when the combo box
      shows "Tags", the template-tags box otherwise. The rule is applied to
      the box in use; the other box keeps its text. */
  function ComposeEdit(templates: map<string, seq<string>>, key: string, tagsSelected: bool,
                       box1: string, box2: string): (r: (string, string))
    ensures tagsSelected ==> r == (ComposeInput(templates, key, box1), box2)
    ensures !tagsSelected ==> r == (box1, ComposeInput(templates, key, box2))
  {
    if key == [] then (box1, box2)
    else if key in templates then
      var curText := Join(templates[key], Delimiter);
      if tagsSelected then (curText, box2) else (box1, curText)
    else
      var curText := if tagsSelected then box1 else box2;
      var curText' := if curText == [] then key else curText + Delimiter + key;
      if tagsSelected then (curText', box2) else (box1, curText')
  }
}
