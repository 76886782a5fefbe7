// The decision core of the `sortable_header` view helper: from a column name,
// the header's options, the request parameters and the module-level icon
// settings it decides which direction the header's link asks for, which
// label and icon it shows and where, and which parameters the link carries.
// The HTML itself is left to the framework; a header is modelled as its
// label pieces, its sort field and direction, and its link parameters.
module SortableListHelper {
  import opened Wrappers
  import opened RubyText

  // A sort direction; the helper spells them 'ASC' and 'DESC'.
  datatype Dir = Asc | Desc

  function DirName(d: Dir): string {
    match d
    case Asc => "ASC"
    case Desc => "DESC"
  }

  function Opposite(d: Dir): Dir {
    match d
    case Asc => Desc
    case Desc => Asc
  }

  // The value of the `position` setting: `:before`, `:after`, or anything
  // else it was assigned (nil, a string, another symbol).
  datatype Position = Before | After | OtherPosition

  // The settings `asc_img`, `desc_img`, `neutral_img` and `position`; an image
  // is `None` while it is nil.
  datatype Settings = Settings(
    ascImg: Option<string>,
    descImg: Option<string>,
    neutralImg: Option<string>,
    position: Position)

  // The settings as the module leaves them when it is loaded.
  function DefaultSettings(): Settings {
    Settings(None, None, None, Before)
  }

  // What the ActiveRecord model named by the `class_name` option offers:
  // `human_attribute_name`, `columns_hash` (here: the name of the column an
  // attribute is stored in, if any), `quoted_table_name` and the connection's
  // `quote_column_name`.
  datatype ModelClass = ModelClass(
    humanAttributeName: string -> string,
    columnName: string -> Option<string>,
    quotedTableName: string,
    quoteColumnName: string -> string)

  // The options hash: `label`, `class_name` (already resolved to its class),
  // `descend` and `default`.
  datatype HeaderOptions = HeaderOptions(
    givenLabel: Option<string>,
    className: Option<ModelClass>,
    descend: bool,
    byDefault: bool)

  function NoOptions(): HeaderOptions {
    HeaderOptions(None, None, false, false)
  }

  // The request parameters, by name.
  type Params = map<string, string>

  const SortKey: string := "sort"

  // `cur_field, cur_dir` as the multiple assignment binds them; nil is `None`.
  datatype CurrentSort = CurrentSort(field: Option<string>, dir: Option<string>)

  // The pieces the link's label is made of: text, the `&nbsp;` separator, and
  // an image tag for an icon.
  datatype Piece = Text(text: string) | Nbsp | Image(src: string)

  // What the helper hands to `link_to`: the label, and the parameters whose
  // `sort` entry is the field and direction the link asks for.
  datatype Header = Header(linkLabel: seq<Piece>, field: string, dir: Dir, args: Params)

  // The one error the helper lets escape: `.first` of a split without fields
  // is nil, and nil has no `split`.
  datatype Raised = NoMethodErrorSplitOnNil

  // The direction a header starts with.
  function InitialDir(o: HeaderOptions): Dir {
    if o.descend then Desc else Asc
  }

  // `params[:sort].present?`
  predicate SortPresent(params: Params) {
    SortKey in params && Present(params[SortKey])
  }

  // The sort value `"#{field} #{dir}"`.
  function SortValue(field: string, d: Dir): string {
    field + " " + DirName(d)
  }

  // The current sort the header reads: the request's, or, for the default
  // column while the request has none, its own initial sort. There is one
  // exactly when the request has a sort or the column is the default, and it
  // is never blank.
  function EffectiveSort(field: string, o: HeaderOptions, params: Params): (cur: Option<string>)
    ensures cur.Some? <==> SortPresent(params) || o.byDefault
    ensures SortPresent(params) ==> cur == Some(params[SortKey])
    ensures cur.Some? ==> Present(cur.value)
  {
    if SortPresent(params) then Some(params[SortKey])
    else if o.byDefault then
      SortValueIsPresent(field, InitialDir(o));
      Some(SortValue(field, InitialDir(o)))
    else None
  }

  // A sort value the helper emits is never blank and never only separators.
  lemma SortValueIsPresent(field: string, d: Dir)
    ensures Present(SortValue(field, d)) && !OnlySpacesAndCommas(SortValue(field, d))
  {
    var s := SortValue(field, d);
    assert s[|field| + 1] == DirName(d)[0];
    assert !IsBlankChar(s[|field| + 1]) && !IsSpace(s[|field| + 1]) && !IsComma(s[|field| + 1]);
  }


  // `cur.split(/\s*,\s*/).first.split /\s+/`, bound to `cur_field, cur_dir`.
  // It raises exactly when the comma split has no fields; the words it binds
  // hold no white space, and a direction is only bound after a field.
  function ParseSort(cur: string): (r: Result<CurrentSort, Raised>)
    ensures r.Err? <==> OnlySpacesAndCommas(cur) && (cur == [] || ',' in cur)
    ensures r.Ok? && r.value.field.Some? ==> NoSpace(r.value.field.value)
    ensures r.Ok? && r.value.dir.Some? ==>
      r.value.field.Some? && NoSpace(r.value.dir.value) && r.value.dir.value != []
  {
    SplitOnCommasIsEmptyIff(cur);
    var segments := SplitOnCommas(cur);
    if segments == [] then Err(NoMethodErrorSplitOnNil)
    else
      var words := SplitOnSpaces(segments[0]);
      WordsHaveNoSpace(segments[0]);
      Ok(CurrentSort(At(words, 0), At(words, 1)))
  }

  // The words of `split(/\s+/)` hold no white space, and all but the first
  // are non-empty.
  lemma WordsHaveNoSpace(s: string)
    ensures forall k :: 0 <= k < |SplitOnSpaces(s)| ==> NoSpace(SplitOnSpaces(s)[k])
    ensures forall k :: 0 < k < |SplitOnSpaces(s)| ==> SplitOnSpaces(s)[k] != []
  {
    var fs := SpaceFields(s);
    var ws := SplitOnSpaces(s);
    assert ws == fs[..|ws|];
    forall k | 0 <= k < |ws| ensures NoSpace(ws[k]) {
      assert ws[k] == fs[k];
    }
    forall k | 0 < k < |ws| ensures ws[k] != [] {
      if k < |fs| - 1 {
        assert ws[k] == fs[k];
      } else {
        assert ws[|ws| - 1] != [];
      }
    }
  }

  // The current sort, parsed when there is one.
  function ParseCurrent(cur: Option<string>): Result<Option<CurrentSort>, Raised> {
    match cur
    case None => Ok(None)
    case Some(s) =>
      match ParseSort(s)
      case Err(e) => Err(e)
      case Ok(c) => Ok(Some(c))
  }

  // `cur && cur_field == field`
  predicate IsCurrent(field: string, cur: Option<CurrentSort>) {
    cur.Some? && cur.value.field == Some(field)
  }

  // The direction the link asks for: the opposite of the current one on the
  // current column (anything but 'ASC' counts as descending), and the initial
  // direction on any other column.
  function TargetDir(field: string, initial: Dir, cur: Option<CurrentSort>): (d: Dir)
    ensures IsCurrent(field, cur) ==> (d == Desc <==> cur.value.dir == Some("ASC"))
    ensures !IsCurrent(field, cur) ==> d == initial
  {
    if IsCurrent(field, cur) then (if cur.value.dir == Some("ASC") then Desc else Asc)
    else initial
  }

  // The label text: the `label` option, else the model's human attribute
  // name, else the titleized field.
  function LabelText(field: string, o: HeaderOptions, titleize: string -> string): string {
    if o.givenLabel.Some? then o.givenLabel.value
    else if o.className.Some? then o.className.value.humanAttributeName(field)
    else titleize(field)
  }

  // The icon: the ascending or descending image, picked by the direction the
  // link asks for, on the current column; the neutral image on any other.
  function Icon(current: bool, target: Dir, settings: Settings): Option<string> {
    if current then (if target == Asc then settings.ascImg else settings.descImg)
    else settings.neutralImg
  }

  // The first text piece of a label.
  function TextOf(parts: seq<Piece>): Option<string> {
    if parts == [] then None
    else if parts[0].Text? then Some(parts[0].text)
    else TextOf(parts[1..])
  }

  // The first image of a label.
  function ImageOf(parts: seq<Piece>): Option<string> {
    if parts == [] then None
    else if parts[0].Image? then Some(parts[0].src)
    else ImageOf(parts[1..])
  }

  // The label with its icon, if there is one, put after it for `:after` and
  // before it otherwise, the two joined by `&nbsp;`. Both the text and the
  // icon can be read back from the result.
  function Decorate(text: string, icon: Option<string>, position: Position): (parts: seq<Piece>)
    ensures TextOf(parts) == Some(text)
    ensures ImageOf(parts) == icon
    ensures icon.None? ==> parts == [Text(text)]
    ensures icon.Some? ==> |parts| == 3 && parts[1] == Nbsp && (parts[0].Image? <==> position != After)
  {
    match icon
    case None => [Text(text)]
    case Some(img) =>
      if position == After then
        var parts := [Text(text), Nbsp, Image(img)];
        assert parts[1..][1..] == [Image(img)];
        assert ImageOf(parts) == ImageOf(parts[1..]) == ImageOf([Image(img)]);
        parts
      else
        var parts := [Image(img), Nbsp, Text(text)];
        assert parts[1..][1..] == [Text(text)];
        assert TextOf(parts) == TextOf(parts[1..]) == TextOf([Text(text)]);
        parts
  }

  // The label as markup, given how an image tag is rendered.
  function Markup(parts: seq<Piece>, imageTag: string -> string): string {
    if parts == [] then ""
    else
      var head := match parts[0]
        case Text(t) => t
        case Nbsp => "&nbsp;"
        case Image(src) => imageTag(src);
      head + Markup(parts[1..], imageTag)
  }

  // The field the link sorts by: qualified by the model's quoted table and
  // column names when the model has a column for it, the field itself otherwise.
  function SortColumn(field: string, klass: Option<ModelClass>): string {
    if klass.Some? && klass.value.columnName(field).Some? then
      klass.value.quotedTableName + "." + klass.value.quoteColumnName(klass.value.columnName(field).value)
    else field
  }

  // `params.merge sort: ...`: the request's parameters with `sort` set to the
  // new sort value and every other parameter kept.
  function SortArgs(params: Params, column: string, d: Dir): (args: Params)
    ensures args.Keys == params.Keys + {SortKey}
    ensures args[SortKey] == SortValue(column, d)
    ensures forall k :: k in params && k != SortKey ==> args[k] == params[k]
  {
    params[SortKey := SortValue(column, d)]
  }

  // The header for a current sort already read: everything `sortable_header`
  // does after line 64.
  function Render(field: string, o: HeaderOptions, params: Params, cur: Option<CurrentSort>,
                  settings: Settings, titleize: string -> string): Header
  {
    var dir := TargetDir(field, InitialDir(o), cur);
    var icon := Icon(IsCurrent(field, cur), dir, settings);
    var column := SortColumn(field, o.className);
    Header(Decorate(LabelText(field, o, titleize), icon, settings.position),
           column, dir, SortArgs(params, column, dir))
  }

  // `sortable_header(field, options)` with `params`, the settings and the
  // inflector's `titleize` as inputs.
  function SortableHeader(field: string, o: HeaderOptions, params: Params, settings: Settings,
                          titleize: string -> string): Result<Header, Raised>
  {
    match ParseCurrent(EffectiveSort(field, o, params))
    case Err(e) => Err(e)
    case Ok(cur) => Ok(Render(field, o, params, cur, settings, titleize))
  }
}
