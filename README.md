# sortable_list in Dafny

This project models `SortableListHelper#sortable_header`, the view helper of the
`sortable_list` gem, together with the module settings `asc_img`, `desc_img`,
`neutral_img` and `position` that it reads.

The helper takes a column name, its options (`label`, `class_name`, `descend`,
`default`), the request parameters and the settings. From these it decides:

- which direction the header's link asks for;
- which label and icon the header shows, and in which order;
- which parameters the link carries.

The model is a set of pure functions. `SortableListHelper.SortableHeader`
returns a `Header`, which holds:

- the label as a sequence of pieces: text, the `&nbsp;` separator, and an image;
- the sort column;
- the direction;
- the merged parameters.

The HTML itself is left out. `SortableListLaws.IconPlacement` states the
label's markup for any given image-tag renderer.

Ruby's string handling is modelled exactly in module `RubyText`:

- `blank?` and `present?`, which use the Unicode white-space class;
- `String#split` with `/\s*,\s*/` and with `/\s+/`, where `\s` is the six ASCII
  white-space characters;
- the rule that `split` drops trailing empty fields.

This rule matters for one input. The helper calls `.first` on the comma split,
and when that split has no fields `.first` is nil; calling `split` on nil then
raises `NoMethodError`. `SortableListLaws.RaisesIff` proves when this happens:
exactly when the request's `sort` is made only of white space and commas and
holds at least one comma, for example `","` or `" , "`. The model returns `Err`
for these inputs.

When the segment before the first comma is only white space, the later segments
decide whether line 62 raises. `" ,"` raises, because every field is empty and
all of them are dropped. `" ,x"` keeps its empty first field, which binds neither
a field nor a direction, so no header is current. `" "` alone is blank, so the
helper does not parse it and uses the default instead.

The icon is picked by the direction the link asks for. Line 75 tests `dir`
after line 63 has toggled it, so on a column currently sorted DESC the link asks
for ASC and the header shows `asc_img`. The gem's tests expect exactly this at
test/sortable_list_test.rb:63-64, where a current `first_name DESC` shows
`down.png`, the image configured as `asc_img`.

The collaborators are inputs to the model:

- ActiveSupport's `titleize` is a function parameter.
- The model class's `human_attribute_name`, `columns_hash` lookup,
  `quoted_table_name` and `quote_column_name` are `ModelClass` fields.
- `image_tag` is a function parameter of `Markup`.

Modules:

- `wrappers.dfy`: `Option` and `Result`.
- `ruby_text.dfy`: `RubyText`, the string semantics above.
- `sortable_list_helper.dfy`: `SortableListHelper`, the data model and the
  helper's decisions.
- `sortable_list_laws.dfy`: `SortableListLaws`, the properties of the helper.
- `sortable_list_examples.dfy`: `SortableListExamples`, the gem's test cases as
  lemmas.

## Model

| member | source | states |
|---|---|---|
| SortableListHelper.ParseSort | lib/sortable_list.rb:61-62 | `cur.split(/\s*,\s*/).first.split /\s+/`: parsing the current sort fails exactly when the string is only `\s` and commas and is empty or holds a comma; the words it binds hold no white space, and a direction is bound only after a field |
| SortableListHelper.TargetDir | lib/sortable_list.rb:51-63 | on the current column the link asks for DESC iff the current direction is exactly 'ASC'; on any other column it keeps the initial direction |
| SortableListHelper.Decorate | lib/sortable_list.rb:85-89 | the label's text and icon can both be read back; with no icon the label is the bare text; with an icon it has three pieces joined by `&nbsp;`, with the image first unless the position is `:after` |
| SortableListHelper.SortArgs | lib/sortable_list.rb:100 | the merged parameters have the request's keys plus `sort`, `sort` is column, space and direction, and every other key keeps its value |
| SortableListHelper.WordsHaveNoSpace | lib/sortable_list.rb:62 | the words of `split(/\s+/)` hold no white space, and every word after the first is non-empty |
| RubyText.TrimLeftIsSuffix | lib/sortable_list.rb:62 | what `TrimLeft` leaves is a suffix of the input, only `\s` characters are removed, and it does not start with one |
| RubyText.TrimRightIsPrefix | lib/sortable_list.rb:62 | trimming on the right keeps a prefix, removes only `\s` characters, and does not end with one |
| RubyText.CommaFields | lib/sortable_list.rb:62 | cutting at `\s*,\s*` gives at least one field; no field holds a comma, and no field but the last ends with white space |
| RubyText.CommaFieldsStartTrimmed | lib/sortable_list.rb:62 | no field but the first starts with white space, because the separator swallows the white space after its comma |
| RubyText.CommaFieldsRebuild | lib/sortable_list.rb:62 | `SplitOnCommas` before trailing empty fields are dropped: the fields, with the separators between them in order, are exactly the text, and each separator is white space, one comma and white space |
| RubyText.CommaFieldsGreedy | lib/sortable_list.rb:62 | a separator that follows an empty inner field starts with its comma, because the previous match took all the white space; with the lemmas above this fixes every field |
| RubyText.SpaceFields | lib/sortable_list.rb:62 | cutting at `\s+` gives fields with no white space; the first is non-empty when the text does not start with white space, and all inner ones are non-empty |
| RubyText.SpaceFieldsRebuild | lib/sortable_list.rb:62 | `SplitOnSpaces` before trailing empty fields are dropped: the fields, with the non-empty runs of white space between them in order, are exactly the text; with the contract of `SpaceFields` this fixes the fields as the words of the text in order |
| RubyText.DropTrailingEmpty | lib/sortable_list.rb:62 | the kept fields are a prefix, the last kept field is non-empty, and every dropped field is empty |
| RubyText.SplitOnCommasIsEmptyIff | lib/sortable_list.rb:62 | `SplitOnCommas`, which is `split(/\s*,\s*/)`, has no fields exactly when the text is only `\s` and commas and is empty or holds a comma |
| RubyText.SplitOnCommasHead | lib/sortable_list.rb:62 | when the text `a` before the first comma is not only white space, the first comma segment is `a` with its trailing white space removed |
| RubyText.SplitOnCommasOfBlankHead | lib/sortable_list.rb:62 | when the text before the first comma is only white space, the split has no fields or its first field is empty |
| RubyText.SplitOnSpacesOfWords | lib/sortable_list.rb:62 | `SplitOnSpaces`: a word, white space, a non-empty word and then nothing or white space and more give those two words first, in order |
| RubyText.SplitOnSpacesOfLeadingSpace | lib/sortable_list.rb:62 | text that starts with white space and holds more than white space gives an empty first word and a non-empty second one |
| RubyText.SplitOnSpacesIgnoresTrailingSpace | lib/sortable_list.rb:62 | trailing white space does not change the result of `split(/\s+/)` |
| SortableListLaws.ParseSortOfWords | lib/sortable_list.rb:61-62 | a sort made of a field, any white space, a direction word and then nothing or more after white space binds exactly that field and that word |
| SortableListLaws.ParseSortOfLeadingSpace | lib/sortable_list.rb:61-62 | a sort made of non-empty white space and then text that holds no comma and is not only white space binds the empty field and some direction |
| SortableListLaws.ParseSortOfSortValue | lib/sortable_list.rb:59-62 | a sort value the helper builds from a field and a direction word parses back into that field and word |
| SortableListLaws.ParseSortIgnoresLaterSegments | lib/sortable_list.rb:62 | when the first segment `a` holds no comma and is not only white space, what follows the comma does not change the parse of `a,b` |
| SortableListLaws.ParseSortOfBlankSegment | lib/sortable_list.rb:61-62 | when the segment before the first comma is only white space, parsing fails exactly when what follows the comma is only white space and commas, and otherwise binds neither a field nor a direction |
| SortableListLaws.NoCurrentSortUsesInitialDir | lib/sortable_list.rb:51-82 | `InitialDir`: with no sort and no `default`, the link asks for DESC iff `descend` is set, and the neutral icon is shown |
| SortableListLaws.CurrentColumnToggles | lib/sortable_list.rb:61-79 | on the current column the link asks for DESC iff the current direction is 'ASC', and the icon is the ascending or descending image for that new direction |
| SortableListLaws.SortValueToggles | lib/sortable_list.rb:61-64 | a request sorted `field`, any white space, `word` and anything after more white space makes the link ask for DESC when the word is 'ASC' and for ASC otherwise |
| SortableListLaws.OtherColumnKeepsInitialDir | lib/sortable_list.rb:63-82 | a current sort on another column keeps the initial direction and shows the neutral icon |
| SortableListLaws.LeadingSpaceIsNeverCurrent | lib/sortable_list.rb:62-82 | a request sort made of non-empty white space and then text that holds no comma and is not only white space makes no header of a non-empty column current: it keeps its initial direction and shows the neutral icon |
| SortableListLaws.BlankSegmentIsNeverCurrent | lib/sortable_list.rb:56-82 | a request sort whose segment before the first comma is only white space, followed by more than white space and commas, makes no header current, even on the `default` column: it keeps its initial direction and shows the neutral icon |
| SortableListLaws.SpacedFieldIsNeverCurrent | lib/sortable_list.rb:62-63 | a column name holding white space never matches the current field |
| SortableListLaws.LaterSegmentsIgnored | lib/sortable_list.rb:56-62 | for a present `a` without a comma, a request sort `a,b` renders the same header as `a` alone |
| SortableListLaws.DefaultActsAsOwnSort | lib/sortable_list.rb:56-60 | with `default` and no sort in the request, the header is the one rendered for the request sort `field initialDir` without `default` |
| SortableListLaws.DefaultColumnStartsToggled | lib/sortable_list.rb:56-64 | for a field with no `\s` and no comma, the default column's link asks for the opposite of its initial direction and shows that direction's icon |
| SortableListLaws.RequestSortOverridesDefault | lib/sortable_list.rb:56-58 | when the request has a sort, the `default` option changes nothing |
| SortableListLaws.ClickReverses | lib/sortable_list.rb:20-26 | for a field with no `\s` and no comma whose sort column is the field itself, following the link once more asks for the opposite direction, keeps every other parameter and shows the new direction's icon |
| SortableListLaws.ClickTwiceRestores | lib/sortable_list.rb:20-26 | for the same fields, following the link twice restores the first header's direction and parameters |
| SortableListLaws.QualifiedColumnIsNotCurrent | lib/sortable_list.rb:96-100 | when `class_name` qualifies the column, following the link does not make the header current, so the direction stays the initial one |
| SortableListLaws.LabelPrecedence | lib/sortable_list.rb:66-72 | `LabelText`: the label is the `label` option, else the model's human attribute name, else the titleized field |
| SortableListLaws.IconSelection | lib/sortable_list.rb:74-83 | `Icon`: the icon is chosen by the requested direction on the current column and is the neutral image elsewhere; with no icon the label is the bare text |
| SortableListLaws.MarkupOfDecorate | lib/sortable_list.rb:83-89 | `Markup` of a decorated label: the markup is `text&nbsp;img` for `:after`, `img&nbsp;text` for any other position, and the text alone without an icon |
| SortableListLaws.IconPlacement | lib/sortable_list.rb:83-89 | the header's label markup follows that placement rule |
| SortableListLaws.LinkParams | lib/sortable_list.rb:96-100 | `SortColumn` and `SortArgs`: the link keeps the request's other parameters, sets `sort` to column and direction, and qualifies the column only when the model has one for the field |
| SortableListLaws.RaisesIff | lib/sortable_list.rb:56-64 | `SortableHeader` and `ParseCurrent`: the helper raises exactly when the request sort is only white space and commas with at least one comma |
| SortableListLaws.RenderOnCurrent | lib/sortable_list.rb:63-79 | `Render` on the current column sorted in direction `d` asks for the opposite direction and shows that direction's image |
| SortableListLaws.RenderOnOther | lib/sortable_list.rb:63-82 | `Render` on any other column keeps the initial direction and shows the neutral image |
| SortableListHelper.EffectiveSort | lib/sortable_list.rb:56-60 | `present?` and `blank?` (`Present`, `Blank`): there is a current sort exactly when the request's sort is present or the column is the default; it is the request's sort whenever that is present; and it is never blank |
| SortableListLaws.PresentIsNotAllSpace | lib/sortable_list.rb:56-62 | a present sort is not empty and not made only of `\s` characters |
| SortableListLaws.DefaultSettingsShowNoIcon | lib/sortable_list.rb:5-6 | with the settings as loaded, the label is the bare text |
| SortableListExamples.NormalColumn | test/sortable_list_test.rb:22-24 | `s(:first_name)` links to `sort=first_name ASC` labelled "First Name" |
| SortableListExamples.DescColumn | test/sortable_list_test.rb:26-29 | with `descend`, it links to `first_name DESC` |
| SortableListExamples.DefaultColumn | test/sortable_list_test.rb:31-34 | with `default`, it links to `first_name DESC` |
| SortableListExamples.DefaultAndDescColumn | test/sortable_list_test.rb:36-40 | with `default` and the request sort `first_name DESC`, it links to `first_name ASC` |
| SortableListExamples.CurrentAsc | test/sortable_list_test.rb:42-45 | a request sort `first_name ASC` gives a link to `first_name DESC` |
| SortableListExamples.CurrentDesc | test/sortable_list_test.rb:47-50 | a request sort `first_name DESC` gives a link to `first_name ASC` |
| SortableListExamples.GivenLabel | test/sortable_list_test.rb:52-55 | the `label` option gives the label "First" |
| SortableListExamples.ImagesPrepend | test/sortable_list_test.rb:57-67 | the neutral, `down.png` and `up.png` icons are placed before the label |
| SortableListExamples.ImagesAppend | test/sortable_list_test.rb:69-80 | with `:after`, the same icons are placed after the label |
| SortableListExamples.LoneCommaRaises | lib/sortable_list.rb:62 | the request sort `","` raises |
| SortableListExamples.FirstSegmentOnly | lib/sortable_list.rb:62 | `last_name ASC, first_name ASC` makes the `last_name` header ask for DESC |
| SortableListExamples.LeadingSpaceExample | lib/sortable_list.rb:62-63 | ` first_name ASC` binds an empty field, so the `first_name` header keeps ASC |
| SortableListExamples.BlankSegmentThenCommaRaises | lib/sortable_list.rb:62 | the request sort `" ,"` raises |
| SortableListExamples.BlankSegmentThenWord | lib/sortable_list.rb:61-62 | the request sort `" ,x"` binds neither a field nor a direction |
| SortableListExamples.BlankSortOnly | lib/sortable_list.rb:61-62 | parsing `" "` binds neither a field nor a direction; the helper never parses it, because a blank sort is replaced at lines 56-60 |
| SortableListExamples.BlankSegmentOnDefaultColumn | lib/sortable_list.rb:56-82 | on the `default` column the request sort `" ,x"` makes the link ask for ASC, the initial direction |
| SortableListExamples.BlankSortOnDefaultColumn | lib/sortable_list.rb:56-64 | on the `default` column the blank request sort `" "` is replaced by the default, so the link asks for DESC |
| SortableListExamples.TabSeparatedSort | lib/sortable_list.rb:62-63 | a tab between `first_name` and `DESC` reads like a space, so the header asks for ASC |

## Left out

- HTML: `link_to`, `html_safe`, URL building and `CGI.escape` are not modelled. A header is its label pieces plus its link parameters, and the image tag is a function parameter.
- `image_tag`'s own output (asset path, `alt`, `border`) is not modelled: it comes from a library.
- `constantize`: `class_name` is taken as already resolved, so an unknown class name (a `NameError`) is not modelled.
- `titleize` and `human_attribute_name` are opaque functions, with no model of inflection or i18n lookup.
- Settings: the `mattr_accessor` settings are a `Settings` value passed in. Assigning them from another thread while a header renders is not modelled.
- `position` is modelled as `:before`, `:after` or any other value. Every value other than `:after` behaves like `:before`.
- Options: only their truthiness is modelled (`descend`, `default` as booleans, `label` as present or absent). A `label: false` counts as absent, as in Ruby.
- Parameters: `params` is a map from strings to strings. Nested or non-string parameter values and the order of keys in the link are not modelled.
- The `field.to_s` conversion of a symbol is not modelled: the field is a string.
- The `s` alias (line 103) and the Rails `Railtie` that registers the helper (lines 105-109) are framework wiring and are not modelled.
- ClickReverses, ClickTwiceRestores and DefaultColumnStartsToggled: the reversal promised at lib/sortable_list.rb:20-26 is stated only for a field with no `\s` and no comma. For a field such as `first name` the emitted sort `first name ASC` reads back at line 62 as the field `first`, so the header is never current and nothing toggles, with or without `default` (SpacedFieldIsNeverCurrent). A comma in the field cuts the emitted sort before its direction in the same way.
- ClickReverses: the round trip is also stated only for a header whose sort column is its own field, that is, with no `class_name` or with a model that has no column for the field. With a qualified column the link's sort names that column, and QualifiedColumnIsNotCurrent proves that the round trip then does not hold.
- ParseSort: its own contract states when it raises and the shape of the words it binds, not which words it binds. ParseSortOfWords, ParseSortOfLeadingSpace and ParseSortIgnoresLaterSegments state which words it binds for the forms a sort takes; for any other text this follows only from the contracts and lemmas about the two splits.
