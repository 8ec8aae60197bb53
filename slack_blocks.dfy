/**
 * The Slack block-kit document the translator builds: `mrkdwn` text objects,
 * `section` blocks holding one text or several side-by-side fields, and
 * `context` blocks, gathered in a coloured attachment. A titled text is
 * written `*Title:*` and a line break before its value; `ParseTitled` reads
 * such a text back, and `Entries` reads the title and value of every text of a
 * block sequence.
 */
module SlackBlocks {
  import opened Wrappers

  /** `{'type': 'mrkdwn', 'text': text}` */
  datatype Markdown = Markdown(text: string)

  datatype Block =
    | TextSection(text: Markdown)          // {'type': 'section', 'text': ...}
    | FieldsSection(fields: seq<Markdown>) // {'type': 'section', 'fields': [...]}
    | Context(elements: seq<Markdown>)     // {'type': 'context', 'elements': [...]}

  /** `{'color': color, 'blocks': blocks}` */
  datatype Attachment = Attachment(color: string, blocks: seq<Block>)

  /** `{'attachments': attachments}` */
  datatype Message = Message(attachments: seq<Attachment>)

  /** What a title is written as before its value; a missing or empty title writes nothing. */
  function TitlePrefix(title: Option<string>): string {
    match title
    case Some(t) => if t != "" then "*" + t + ":*\n" else ""
    case None => ""
  }

  /**
   * `construct_slack_message_markdown(title, value)`: the value after its
   * title's prefix. An untitled text is the value itself; a titled one starts
   * with `*` and ends with the value.
   */
  function MarkdownOf(title: Option<string>, value: string): (m: Markdown)
    ensures (title == None || title == Some("")) ==> m.text == value
    ensures |m.text| >= |value| && m.text[|m.text| - |value|..] == value
    ensures title.Some? && title.value != "" ==> |m.text| == |title.value| + 4 + |value| && m.text[0] == '*'
  {
    var prefix := TitlePrefix(title);
    var text := prefix + value;
    assert text[|prefix|..] == value;
    Markdown(text)
  }

  /** `construct_slack_message_text_section(title, value)` */
  function TextSectionOf(title: string, value: string): Block {
    TextSection(MarkdownOf(Some(title), value))
  }

  /** `construct_slack_message_fields_section(*fields)` */
  function FieldsSectionOf(fields: seq<Markdown>): Block {
    FieldsSection(fields)
  }

  // ---------------------------------------------------------------------------
  // Reading titled texts back

  predicate TitleEndAt(text: string, j: nat) {
    j + 3 <= |text| && text[j] == ':' && text[j + 1] == '*' && text[j + 2] == '\n'
  }

  /** The first position from `i` on where `:*` and a line break begin. */
  function TitleEnd(text: string, i: nat): (r: Option<nat>)
    ensures r.Some? ==> i <= r.value && TitleEndAt(text, r.value)
    decreases |text| - i
  {
    if i + 3 > |text| then None
    else if TitleEndAt(text, i) then Some(i)
    else TitleEnd(text, i + 1)
  }

  /**
   * Splits a titled text into its title and value: the text starts with `*`
   * and the title runs up to the first `:*` and line break.
   */
  function ParseTitled(text: string): Option<(string, string)> {
    if text != [] && text[0] == '*' then
      match TitleEnd(text, 1)
      case Some(j) => Some((text[1..j], text[j + 3..]))
      case None => None
    else None
  }

  lemma {:induction false} TitleEndFirst(text: string, i: nat, j: nat)
    requires i <= j && TitleEndAt(text, j)
    requires forall k :: i <= k < j ==> text[k] != ':'
    ensures TitleEnd(text, i) == Some(j)
    decreases j - i
  {
    if i < j {
      assert text[i] != ':';
      TitleEndFirst(text, i + 1, j);
    }
  }

  /** A title without a colon and its value are read back from the text they are written as. */
  lemma ParseMarkdownOf(title: string, value: string)
    requires title != "" && ':' !in title
    ensures ParseTitled(MarkdownOf(Some(title), value).text) == Some((title, value))
  {
    var text := MarkdownOf(Some(title), value).text;
    var j := |title| + 1;
    assert text == "*" + title + ":*\n" + value;
    assert text[1..j] == title && text[j + 3..] == value;
    assert TitleEndAt(text, j);
    forall k | 1 <= k < j ensures text[k] != ':' {
      assert text[k] == title[k - 1];
    }
    TitleEndFirst(text, 1, j);
  }

  /** The title and value of one text: an untitled text has the empty title. */
  function EntryOf(m: Markdown): (string, string) {
    match ParseTitled(m.text)
    case Some(entry) => entry
    case None => ("", m.text)
  }

  /** An untitled text that does not start with `*` reads back with the empty title. */
  lemma EntryOfUntitled(value: string)
    requires value != [] && value[0] != '*'
    ensures EntryOf(MarkdownOf(None, value)) == ("", value)
  {
  }

  function EntriesOf(ms: seq<Markdown>): seq<(string, string)> {
    if ms == [] then [] else [EntryOf(ms[0])] + EntriesOf(ms[1..])
  }

  /** The title and value of every text of one block, in order. */
  function BlockEntries(block: Block): seq<(string, string)> {
    match block
    case TextSection(m) => [EntryOf(m)]
    case FieldsSection(ms) => EntriesOf(ms)
    case Context(ms) => EntriesOf(ms)
  }

  /** The title and value of every text of the blocks, in order. */
  function Entries(blocks: seq<Block>): seq<(string, string)> {
    if blocks == [] then [] else BlockEntries(blocks[0]) + Entries(blocks[1..])
  }

  lemma {:induction false} EntriesAppend(a: seq<Block>, b: seq<Block>)
    ensures Entries(a + b) == Entries(a) + Entries(b)
  {
    if a == [] {
      assert a + b == b;
    } else {
      var ab := a + b;
      assert ab[0] == a[0] && ab[1..] == a[1..] + b;
      EntriesAppend(a[1..], b);
      calc {
        Entries(ab);
        BlockEntries(a[0]) + Entries(a[1..] + b);
        BlockEntries(a[0]) + (Entries(a[1..]) + Entries(b));
        (BlockEntries(a[0]) + Entries(a[1..])) + Entries(b);
      }
    }
  }

  /** A text section with a title that has no colon reads back as that title and its value. */
  lemma TextSectionEntries(title: string, value: string)
    requires title != "" && ':' !in title
    ensures Entries([TextSectionOf(title, value)]) == [(title, value)]
  {
    var b := TextSectionOf(title, value);
    ParseMarkdownOf(title, value);
    assert Entries([b]) == BlockEntries(b) + Entries([]);
  }

  /** A fields section reads back as the entries of its fields, in order. */
  lemma FieldsSectionEntries(fields: seq<Markdown>)
    ensures Entries([FieldsSectionOf(fields)]) == EntriesOf(fields)
  {
    var b := FieldsSectionOf(fields);
    assert Entries([b]) == BlockEntries(b) + Entries([]);
  }

  /** Two titled fields read back as their titles and values. */
  lemma TwoFieldsEntries(title1: string, value1: string, title2: string, value2: string)
    requires title1 != "" && ':' !in title1 && title2 != "" && ':' !in title2
    ensures EntriesOf([MarkdownOf(Some(title1), value1), MarkdownOf(Some(title2), value2)])
      == [(title1, value1), (title2, value2)]
  {
    var ms := [MarkdownOf(Some(title1), value1), MarkdownOf(Some(title2), value2)];
    ParseMarkdownOf(title1, value1);
    ParseMarkdownOf(title2, value2);
    assert ms[1..][1..] == [];
    assert EntriesOf(ms) == [EntryOf(ms[0])] + EntriesOf(ms[1..]);
    assert EntriesOf(ms[1..]) == [EntryOf(ms[1])] + EntriesOf([]);
  }

  /** A context block with one untitled text that does not start with `*` reads back with the empty title. */
  lemma ContextEntries(value: string)
    requires value != [] && value[0] != '*'
    ensures Entries([Context([MarkdownOf(None, value)])]) == [("", value)]
  {
    var b := Context([MarkdownOf(None, value)]);
    EntryOfUntitled(value);
    assert Entries([b]) == BlockEntries(b) + Entries([]);
    assert EntriesOf(b.elements) == [EntryOf(b.elements[0])] + EntriesOf([]);
  }

  lemma EntriesOfTwo(a: Block, b: Block)
    ensures Entries([a, b]) == Entries([a]) + Entries([b])
  {
    EntriesAppend([a], [b]);
    assert [a] + [b] == [a, b];
  }

  lemma EntriesOfThree(a: Block, b: Block, c: Block)
    ensures Entries([a, b, c]) == Entries([a]) + Entries([b]) + Entries([c])
  {
    EntriesOfTwo(a, b);
    EntriesAppend([a, b], [c]);
    assert [a, b] + [c] == [a, b, c];
  }

  lemma EntriesOfFive(b0: seq<Block>, b1: seq<Block>, b2: seq<Block>, b3: seq<Block>, b4: seq<Block>)
    ensures Entries(b0 + b1 + b2 + b3 + b4)
      == Entries(b0) + Entries(b1) + Entries(b2) + Entries(b3) + Entries(b4)
  {
    EntriesAppend(b0, b1);
    EntriesAppend(b0 + b1, b2);
    EntriesAppend(b0 + b1 + b2, b3);
    EntriesAppend(b0 + b1 + b2 + b3, b4);
  }

  /** The titles of entries, in order. */
  function Titles(entries: seq<(string, string)>): (titles: seq<string>)
    ensures |titles| == |entries|
    ensures forall i :: 0 <= i < |entries| ==> titles[i] == entries[i].0
  {
    if entries == [] then [] else [entries[0].0] + Titles(entries[1..])
  }

  lemma TitlesAppend(a: seq<(string, string)>, b: seq<(string, string)>)
    ensures Titles(a + b) == Titles(a) + Titles(b)
  {
    var t := Titles(a + b);
    assert forall i :: 0 <= i < |t| ==> t[i] == (Titles(a) + Titles(b))[i];
  }
}
