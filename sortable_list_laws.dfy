// What `sortable_header` promises: the direction its link asks for, the
// round trip of clicking that link again, the `default` and `descend`
// options, label precedence, icon choice and placement, the parameters the
// link carries, and the one input that makes it raise.
module SortableListLaws {
  import opened Wrappers
  import opened RubyText
  import opened SortableListHelper

  // A name a sort value can carry intact: no white space and no comma.
  predicate IsWord(s: string) {
    NoSpace(s) && NoComma(s)
  }

  // The column whose header is being rendered is the one currently sorted.
  predicate CurrentColumn(field: string, o: HeaderOptions, params: Params) {
    var cur := ParseCurrent(EffectiveSort(field, o, params));
    cur.Ok? && IsCurrent(field, cur.value)
  }

  lemma PresentIsNotAllSpace(s: string)
    requires Present(s)
    ensures !AllSpace(s) && s != []
  {
    var i :| 0 <= i < |s| && !IsBlankChar(s[i]);
    assert !IsSpace(s[i]);
  }

  lemma PresentAppend(a: string, b: string)
    requires Present(a)
    ensures Present(a + b)
  {
    var i :| 0 <= i < |a| && !IsBlankChar(a[i]);
    assert (a + b)[i] == a[i];
  }

  lemma SortValueHasNoComma(field: string, d: string)
    requires NoComma(field) && NoComma(d)
    ensures NoComma(field + " " + d)
  {
    var s := field + " " + d;
    forall i | 0 <= i < |s| ensures !IsComma(s[i]) {
      if i < |field| {
        assert s[i] == field[i];
      } else if i > |field| {
        assert s[i] == d[i - |field| - 1];
      }
    }
  }

  // A sort of a field, white space, a direction word and then nothing or
  // more after white space binds that field and that word: extra white space
  // and later words are ignored.
  lemma ParseSortOfWords(f: string, w: string, d: string, rest: string)
    requires IsWord(f) && AllSpace(w) && w != [] && IsWord(d) && d != []
    requires NoComma(rest) && (rest == [] || IsSpace(rest[0]))
    ensures ParseSort(f + w + d + rest) == Ok(CurrentSort(Some(f), Some(d)))
  {
    AllSpaceHasNoComma(w);
    NoCommaAppend(f, w);
    NoCommaAppend(f + w, d);
    NoCommaAppend(f + w + d, rest);
    SplitOnCommasWithoutComma(f + w + d + rest);
    SplitOnSpacesOfWords(f, w, d, rest);
  }

  // Parsing a sort value gives back the field and the direction it was made of.
  lemma ParseSortOfSortValue(field: string, d: string)
    requires IsWord(field) && IsWord(d) && d != []
    ensures ParseSort(field + " " + d) == Ok(CurrentSort(Some(field), Some(d)))
  {
    assert field + " " + d + "" == field + " " + d;
    assert AllSpace(" ") by {
      assert IsSpace(" "[0]);
    }
    ParseSortOfWords(field, " ", d, "");
  }

  // A sort that starts with white space binds the empty field.
  lemma ParseSortOfLeadingSpace(w: string, t: string)
    requires AllSpace(w) && w != [] && NoComma(t) && !AllSpace(t)
    ensures ParseSort(w + t).Ok? && ParseSort(w + t).value.field == Some([])
    ensures ParseSort(w + t).value.dir.Some?
  {
    AllSpaceHasNoComma(w);
    NoCommaAppend(w, t);
    SplitOnCommasWithoutComma(w + t);
    SplitOnSpacesOfLeadingSpace(w, t);
  }

  // Only the first comma-separated segment of the current sort is read.
  lemma ParseSortIgnoresLaterSegments(a: string, b: string)
    requires NoComma(a) && !AllSpace(a)
    ensures ParseSort(a + "," + b) == ParseSort(a)
  {
    SplitOnCommasHead(a, b);
    SplitOnCommasWithoutComma(a);
    TrimRightThenTrailingSpace(a);
    SplitOnSpacesIgnoresTrailingSpace(TrimRight(a), TrailingSpace(a));
    ParseSortOfHead(a + "," + b, TrimRight(a));
    ParseSortOfHead(a, a);
  }

  // When the segment before the first comma is blank, what follows the comma
  // decides: the sort raises exactly when that is only white space and
  // commas, and otherwise it binds neither a field nor a direction.
  lemma ParseSortOfBlankSegment(w: string, t: string)
    requires AllSpace(w)
    ensures ParseSort(w + "," + t).Err? <==> OnlySpacesAndCommas(t)
    ensures ParseSort(w + "," + t).Ok? ==> ParseSort(w + "," + t) == Ok(CurrentSort(None, None))
  {
    OnlySpacesAndCommasAfterBlank(w, t);
    assert (w + "," + t)[|w|] == ',';
    SplitOnCommasOfBlankHead(w, t);
    SplitOnCommasIsEmptyIff(w + "," + t);
    if SplitOnCommas(w + "," + t) != [] {
      ParseSortOfHead(w + "," + t, []);
      assert SplitOnSpaces([]) == [];
    }
  }

  // A request sort whose first comma segment is blank, and which does not
  // raise, makes no column current: the header keeps its initial direction and
  // shows the neutral icon, whatever the `default` option says.
  lemma BlankSegmentIsNeverCurrent(field: string, w: string, t: string, o: HeaderOptions, params: Params,
                                   settings: Settings, titleize: string -> string)
    requires AllSpace(w) && !OnlySpacesAndCommas(t)
    requires SortPresent(params) && params[SortKey] == w + "," + t
    ensures var r := SortableHeader(field, o, params, settings, titleize);
      && r.Ok?
      && r.value.dir == InitialDir(o)
      && ImageOf(r.value.linkLabel) == settings.neutralImg
  {
    ParseSortOfBlankSegment(w, t);
    OtherColumnKeepsInitialDir(field, o, params, settings, titleize);
  }

  // `ParseSort` reads the words of the first comma-separated segment.
  lemma ParseSortOfHead(cur: string, seg: string)
    requires |SplitOnCommas(cur)| > 0 && SplitOnCommas(cur)[0] == seg
    ensures ParseSort(cur) == Ok(CurrentSort(At(SplitOnSpaces(seg), 0), At(SplitOnSpaces(seg), 1)))
  {
  }

  // With neither a current sort in the request nor the `default` option,
  // the link asks for the initial direction (DESC exactly when `descend` is
  // set) and the header shows the neutral icon.
  lemma NoCurrentSortUsesInitialDir(field: string, o: HeaderOptions, params: Params,
                                    settings: Settings, titleize: string -> string)
    requires !SortPresent(params) && !o.byDefault
    ensures var r := SortableHeader(field, o, params, settings, titleize);
      && r.Ok?
      && (r.value.dir == Desc <==> o.descend)
      && ImageOf(r.value.linkLabel) == settings.neutralImg
  {
  }

  // On the current column the link asks for DESC exactly when the current
  // direction is 'ASC' (a missing or any other direction gives ASC), and the
  // icon follows that new direction: a current DESC shows the ascending image.
  lemma CurrentColumnToggles(field: string, o: HeaderOptions, params: Params,
                             settings: Settings, titleize: string -> string, curDir: Option<string>)
    requires SortPresent(params)
    requires ParseSort(params[SortKey]) == Ok(CurrentSort(Some(field), curDir))
    ensures var r := SortableHeader(field, o, params, settings, titleize);
      && r.Ok?
      && (r.value.dir == Desc <==> curDir == Some("ASC"))
      && ImageOf(r.value.linkLabel) == (if r.value.dir == Asc then settings.ascImg else settings.descImg)
  {
  }

  // The same for a request sort written as the field, white space and a
  // direction word, then nothing or more after white space.
  lemma SortValueToggles(field: string, w: string, word: string, rest: string, o: HeaderOptions,
                         params: Params, settings: Settings, titleize: string -> string)
    requires IsWord(field) && AllSpace(w) && w != [] && IsWord(word) && word != []
    requires NoComma(rest) && (rest == [] || IsSpace(rest[0]))
    requires SortPresent(params) && params[SortKey] == field + w + word + rest
    ensures var r := SortableHeader(field, o, params, settings, titleize);
      r.Ok? && r.value.dir == (if word == "ASC" then Desc else Asc)
  {
    ParseSortOfWords(field, w, word, rest);
    CurrentColumnToggles(field, o, params, settings, titleize, Some(word));
  }

  // A current sort naming another column (or none) leaves the initial
  // direction and shows the neutral icon.
  lemma OtherColumnKeepsInitialDir(field: string, o: HeaderOptions, params: Params,
                                   settings: Settings, titleize: string -> string)
    requires SortPresent(params)
    requires ParseSort(params[SortKey]).Ok? && ParseSort(params[SortKey]).value.field != Some(field)
    ensures var r := SortableHeader(field, o, params, settings, titleize);
      && r.Ok?
      && r.value.dir == InitialDir(o)
      && ImageOf(r.value.linkLabel) == settings.neutralImg
  {
  }

  // A request sort that starts with white space names the empty field, so no
  // header of a named column is current: `" first_name ASC"` leaves the
  // `first_name` header in its initial direction.
  lemma LeadingSpaceIsNeverCurrent(field: string, w: string, t: string, o: HeaderOptions, params: Params,
                                   settings: Settings, titleize: string -> string)
    requires field != [] && AllSpace(w) && w != [] && NoComma(t) && !AllSpace(t)
    requires SortPresent(params) && params[SortKey] == w + t
    ensures var r := SortableHeader(field, o, params, settings, titleize);
      && r.Ok?
      && r.value.dir == InitialDir(o)
      && ImageOf(r.value.linkLabel) == settings.neutralImg
  {
    ParseSortOfLeadingSpace(w, t);
    OtherColumnKeepsInitialDir(field, o, params, settings, titleize);
  }

  // A column name holding white space is never taken for the current column.
  lemma SpacedFieldIsNeverCurrent(field: string, o: HeaderOptions, params: Params,
                                  settings: Settings, titleize: string -> string)
    requires !NoSpace(field)
    ensures var r := SortableHeader(field, o, params, settings, titleize);
      r.Ok? ==> r.value.dir == InitialDir(o) && ImageOf(r.value.linkLabel) == settings.neutralImg
  {
  }

  lemma RenderIgnoresOldSort(field: string, o: HeaderOptions, base: Params, x1: string, x2: string,
                             cur: Option<CurrentSort>, settings: Settings, titleize: string -> string)
    ensures Render(field, o, base[SortKey := x1], cur, settings, titleize)
         == Render(field, o, base[SortKey := x2], cur, settings, titleize)
  {
    var w := SortValue(SortColumn(field, o.className), TargetDir(field, InitialDir(o), cur));
    assert base[SortKey := x1][SortKey := w] == base[SortKey := x2][SortKey := w];
  }

  // Two requests that differ only in their sort, and whose sorts read the
  // same, give the same header.
  lemma SameCurrentSortSameHeader(field: string, o: HeaderOptions, base: Params, x1: string, x2: string,
                                  settings: Settings, titleize: string -> string)
    requires ParseCurrent(EffectiveSort(field, o, base[SortKey := x1]))
          == ParseCurrent(EffectiveSort(field, o, base[SortKey := x2]))
    ensures SortableHeader(field, o, base[SortKey := x1], settings, titleize)
         == SortableHeader(field, o, base[SortKey := x2], settings, titleize)
  {
    var cur := ParseCurrent(EffectiveSort(field, o, base[SortKey := x1]));
    if cur.Ok? {
      RenderIgnoresOldSort(field, o, base, x1, x2, cur.value, settings, titleize);
    }
  }

  lemma EffectiveSortOfPresent(field: string, o: HeaderOptions, params: Params, v: string)
    requires Present(v)
    ensures EffectiveSort(field, o, params[SortKey := v]) == Some(v)
  {
  }

  // Segments after the first comma of the request's sort are ignored.
  lemma LaterSegmentsIgnored(field: string, a: string, b: string, o: HeaderOptions, params: Params,
                             settings: Settings, titleize: string -> string)
    requires Present(a) && NoComma(a)
    ensures SortableHeader(field, o, params[SortKey := a + "," + b], settings, titleize)
         == SortableHeader(field, o, params[SortKey := a], settings, titleize)
  {
    PresentIsNotAllSpace(a);
    PresentAppend(a, ",");
    PresentAppend(a + ",", b);
    ParseSortIgnoresLaterSegments(a, b);
    EffectiveSortOfPresent(field, o, params, a + "," + b);
    EffectiveSortOfPresent(field, o, params, a);
    SameCurrentSortSameHeader(field, o, params, a + "," + b, a, settings, titleize);
  }

  // What is rendered once the current sort is read depends neither on the
  // request's old sort nor on the `default` option.
  lemma RenderIgnoresSortAndDefault(field: string, o: HeaderOptions, params: Params, v: string,
                                    cur: Option<CurrentSort>, settings: Settings, titleize: string -> string)
    ensures Render(field, o, params, cur, settings, titleize)
         == Render(field, o.(byDefault := false), params[SortKey := v], cur, settings, titleize)
  {
    var w := SortValue(SortColumn(field, o.className), TargetDir(field, InitialDir(o), cur));
    assert params[SortKey := w] == params[SortKey := v][SortKey := w];
  }

  // With `default` set and no sort in the request, the header behaves exactly
  // as if the request's sort were its own field in its initial direction.
  lemma DefaultActsAsOwnSort(field: string, o: HeaderOptions, params: Params,
                             settings: Settings, titleize: string -> string)
    requires o.byDefault && !SortPresent(params)
    ensures SortableHeader(field, o, params, settings, titleize)
         == SortableHeader(field, o.(byDefault := false),
                           params[SortKey := SortValue(field, InitialDir(o))], settings, titleize)
  {
    var v := SortValue(field, InitialDir(o));
    var p := params[SortKey := v];
    SortValueIsPresent(field, InitialDir(o));
    assert EffectiveSort(field, o, params) == Some(v);
    assert EffectiveSort(field, o.(byDefault := false), p) == Some(v);
    var cur := ParseCurrent(Some(v));
    if cur.Ok? {
      RenderIgnoresSortAndDefault(field, o, params, v, cur.value, settings, titleize);
    }
  }

  // So the default column's link already asks for the opposite of its
  // initial direction (`first_name` gives DESC).
  lemma DefaultColumnStartsToggled(field: string, o: HeaderOptions, params: Params,
                                   settings: Settings, titleize: string -> string)
    requires IsWord(field) && o.byDefault && !SortPresent(params)
    ensures var r := SortableHeader(field, o, params, settings, titleize);
      && r.Ok?
      && r.value.dir == Opposite(InitialDir(o))
      && ImageOf(r.value.linkLabel) == (if r.value.dir == Asc then settings.ascImg else settings.descImg)
  {
    var d := InitialDir(o);
    SortValueIsPresent(field, d);
    ParseSortOfSortValue(field, DirName(d));
    assert ParseCurrent(EffectiveSort(field, o, params)) == Ok(Some(CurrentSort(Some(field), Some(DirName(d)))));
    HeaderIsRender(field, o, params, settings, titleize);
    RenderOnCurrent(field, d, o, params, settings, titleize);
  }

  // A sort in the request always overrides `default`.
  lemma RequestSortOverridesDefault(field: string, o: HeaderOptions, params: Params,
                                    settings: Settings, titleize: string -> string)
    requires SortPresent(params)
    ensures SortableHeader(field, o.(byDefault := true), params, settings, titleize)
         == SortableHeader(field, o.(byDefault := false), params, settings, titleize)
  {
  }

  // A header is the rendering of the current sort its request reads.
  lemma HeaderIsRender(field: string, o: HeaderOptions, params: Params,
                       settings: Settings, titleize: string -> string)
    requires SortableHeader(field, o, params, settings, titleize).Ok?
    ensures var cur := ParseCurrent(EffectiveSort(field, o, params));
      && cur.Ok?
      && SortableHeader(field, o, params, settings, titleize).value
         == Render(field, o, params, cur.value, settings, titleize)
  {
  }

  // Every rendering links to its sort column with the request's parameters
  // and `sort` replaced.
  lemma RenderShape(field: string, o: HeaderOptions, params: Params, cur: Option<CurrentSort>,
                    settings: Settings, titleize: string -> string)
    ensures var h := Render(field, o, params, cur, settings, titleize);
      && h.field == SortColumn(field, o.className)
      && h.args == params[SortKey := SortValue(h.field, h.dir)]
  {
  }

  // A request whose sort is some column and direction, as a link sets it,
  // reads back as that column and direction.
  lemma ParseLinkSort(field: string, column: string, d: Dir, o: HeaderOptions, params: Params)
    requires IsWord(column)
    ensures ParseCurrent(EffectiveSort(field, o, params[SortKey := SortValue(column, d)]))
         == Ok(Some(CurrentSort(Some(column), Some(DirName(d)))))
  {
    SortValueIsPresent(column, d);
    ParseSortOfSortValue(column, DirName(d));
    EffectiveSortOfPresent(field, o, params, SortValue(column, d));
  }

  // Rendering on the current column sorted in direction `d`.
  lemma RenderOnCurrent(field: string, d: Dir, o: HeaderOptions, params: Params,
                        settings: Settings, titleize: string -> string)
    ensures var h := Render(field, o, params, Some(CurrentSort(Some(field), Some(DirName(d)))), settings, titleize);
      && h.dir == Opposite(d)
      && ImageOf(h.linkLabel) == (if h.dir == Asc then settings.ascImg else settings.descImg)
  {
    assert DirName(d) == "ASC" <==> d == Asc;
  }

  // Rendering with a current sort on some other column, or none.
  lemma RenderOnOther(field: string, o: HeaderOptions, params: Params, cur: Option<CurrentSort>,
                      settings: Settings, titleize: string -> string)
    requires !IsCurrent(field, cur)
    ensures var h := Render(field, o, params, cur, settings, titleize);
      && h.dir == InitialDir(o)
      && ImageOf(h.linkLabel) == settings.neutralImg
  {
  }

  // Following the link once more asks for the opposite direction, with every
  // other parameter unchanged, and the header now shows the icon of that
  // direction (when the model, if any, does not qualify the field).
  lemma ClickReverses(field: string, o: HeaderOptions, params: Params,
                      settings: Settings, titleize: string -> string)
    requires SortColumn(field, o.className) == field && IsWord(field)
    requires SortableHeader(field, o, params, settings, titleize).Ok?
    ensures var h := SortableHeader(field, o, params, settings, titleize).value;
      var r := SortableHeader(field, o, h.args, settings, titleize);
      && r.Ok?
      && r.value.field == field
      && r.value.dir == Opposite(h.dir)
      && r.value.args == h.args[SortKey := SortValue(field, Opposite(h.dir))]
      && ImageOf(r.value.linkLabel) == (if r.value.dir == Asc then settings.ascImg else settings.descImg)
  {
    var h := SortableHeader(field, o, params, settings, titleize).value;
    HeaderIsRender(field, o, params, settings, titleize);
    RenderShape(field, o, params, ParseCurrent(EffectiveSort(field, o, params)).value, settings, titleize);
    ParseLinkSort(field, field, h.dir, o, params);
    var cur := Some(CurrentSort(Some(field), Some(DirName(h.dir))));
    RenderOnCurrent(field, h.dir, o, h.args, settings, titleize);
    RenderShape(field, o, h.args, cur, settings, titleize);
  }

  lemma RestoreEntry(m: Params, k: string, v: string)
    requires k in m
    ensures m[k := v][k := m[k]] == m
  {
  }

  // Two clicks return to the starting direction and the same parameters.
  lemma ClickTwiceRestores(field: string, o: HeaderOptions, params: Params,
                           settings: Settings, titleize: string -> string)
    requires SortColumn(field, o.className) == field && IsWord(field)
    requires SortableHeader(field, o, params, settings, titleize).Ok?
    ensures var h := SortableHeader(field, o, params, settings, titleize).value;
      var r := SortableHeader(field, o, h.args, settings, titleize);
      && r.Ok?
      && var r2 := SortableHeader(field, o, r.value.args, settings, titleize);
      && r2.Ok?
      && r2.value.dir == h.dir
      && r2.value.args == h.args
  {
    var h := SortableHeader(field, o, params, settings, titleize).value;
    ClickReverses(field, o, params, settings, titleize);
    ClickReverses(field, o, h.args, settings, titleize);
    assert Opposite(Opposite(h.dir)) == h.dir;
    RestoreEntry(h.args, SortKey, SortValue(field, Opposite(h.dir)));
  }

  // With `class_name` and a column for the field, the link carries the
  // qualified column instead of the field, so following it does not make
  // this header current: the round trip does not hold.
  lemma QualifiedColumnIsNotCurrent(field: string, o: HeaderOptions, params: Params,
                                    settings: Settings, titleize: string -> string)
    requires SortableHeader(field, o, params, settings, titleize).Ok?
    requires var column := SortColumn(field, o.className); IsWord(column) && column != field
    ensures var h := SortableHeader(field, o, params, settings, titleize).value;
      var r := SortableHeader(field, o, h.args, settings, titleize);
      && r.Ok?
      && r.value.dir == InitialDir(o)
      && ImageOf(r.value.linkLabel) == settings.neutralImg
  {
    var h := SortableHeader(field, o, params, settings, titleize).value;
    var column := SortColumn(field, o.className);
    HeaderIsRender(field, o, params, settings, titleize);
    RenderShape(field, o, params, ParseCurrent(EffectiveSort(field, o, params)).value, settings, titleize);
    ParseLinkSort(field, column, h.dir, o, params);
    RenderOnOther(field, o, h.args, Some(CurrentSort(Some(column), Some(DirName(h.dir)))), settings, titleize);
  }

  // The label text is the `label` option, else the model's human attribute
  // name, else the titleized field.
  lemma LabelPrecedence(field: string, o: HeaderOptions, params: Params,
                        settings: Settings, titleize: string -> string)
    requires SortableHeader(field, o, params, settings, titleize).Ok?
    ensures TextOf(SortableHeader(field, o, params, settings, titleize).value.linkLabel) == Some(
      if o.givenLabel.Some? then o.givenLabel.value
      else if o.className.Some? then o.className.value.humanAttributeName(field)
      else titleize(field))
  {
  }

  // The icon is the ascending or descending image, picked by the direction
  // the link asks for, on the current column, and the neutral image on any
  // other; without an icon the label is the bare text.
  lemma IconSelection(field: string, o: HeaderOptions, params: Params,
                      settings: Settings, titleize: string -> string)
    requires SortableHeader(field, o, params, settings, titleize).Ok?
    ensures var h := SortableHeader(field, o, params, settings, titleize).value;
      && ImageOf(h.linkLabel) == (
        if CurrentColumn(field, o, params) then (if h.dir == Asc then settings.ascImg else settings.descImg)
        else settings.neutralImg)
      && (ImageOf(h.linkLabel).None? ==> h.linkLabel == [Text(LabelText(field, o, titleize))])
  {
  }

  // Markup of a label: `text&nbsp;icon` for `:after`, `icon&nbsp;text` for any
  // other position, the bare text without an icon.
  lemma MarkupOfDecorate(text: string, icon: Option<string>, position: Position,
                         imageTag: string -> string)
    ensures Markup(Decorate(text, icon, position), imageTag) == (
      if icon.None? then text
      else if position == After then text + "&nbsp;" + imageTag(icon.value)
      else imageTag(icon.value) + "&nbsp;" + text)
  {
    var parts := Decorate(text, icon, position);
    if icon.Some? {
      assert parts[1..][1..][1..] == [];
      assert Markup(parts, imageTag) == Markup([parts[0]], imageTag) + Markup(parts[1..], imageTag);
    }
  }

  // The header's label markup puts the icon after the text for `:after` and
  // before it otherwise.
  lemma IconPlacement(field: string, o: HeaderOptions, params: Params,
                      settings: Settings, titleize: string -> string, imageTag: string -> string)
    requires SortableHeader(field, o, params, settings, titleize).Ok?
    ensures var h := SortableHeader(field, o, params, settings, titleize).value;
      var text, icon := LabelText(field, o, titleize), ImageOf(h.linkLabel);
      Markup(h.linkLabel, imageTag) == (
        if icon.None? then text
        else if settings.position == After then text + "&nbsp;" + imageTag(icon.value)
        else imageTag(icon.value) + "&nbsp;" + text)
  {
    var h := SortableHeader(field, o, params, settings, titleize).value;
    var cur := ParseCurrent(EffectiveSort(field, o, params)).value;
    MarkupOfDecorate(LabelText(field, o, titleize),
                     Icon(IsCurrent(field, cur), h.dir, settings), settings.position, imageTag);
  }

  // The link carries the request's parameters with `sort` set to the sort
  // column and the new direction; the sort column is the field itself unless
  // the model has a column for it.
  lemma LinkParams(field: string, o: HeaderOptions, params: Params,
                   settings: Settings, titleize: string -> string)
    requires SortableHeader(field, o, params, settings, titleize).Ok?
    ensures var h := SortableHeader(field, o, params, settings, titleize).value;
      && h.args.Keys == params.Keys + {SortKey}
      && h.args[SortKey] == h.field + " " + DirName(h.dir)
      && (forall k :: k in params && k != SortKey ==> h.args[k] == params[k])
      && (h.field != field ==> o.className.Some? && o.className.value.columnName(field).Some?)
  {
  }

  // The helper raises exactly when the request's sort consists of white space
  // and commas, with at least one comma (`","`, `" , "`).
  lemma RaisesIff(field: string, o: HeaderOptions, params: Params,
                  settings: Settings, titleize: string -> string)
    ensures SortableHeader(field, o, params, settings, titleize).Err?
        <==> SortKey in params && OnlySpacesAndCommas(params[SortKey]) && ',' in params[SortKey]
  {
    if SortKey in params && OnlySpacesAndCommas(params[SortKey]) && ',' in params[SortKey] {
      var s := params[SortKey];
      var j :| 0 <= j < |s| && s[j] == ',';
      assert !IsBlankChar(s[j]);
      assert SortPresent(params);
    }
    if SortPresent(params) {
      PresentIsNotAllSpace(params[SortKey]);
    } else if o.byDefault {
      SortValueIsPresent(field, InitialDir(o));
    }
  }

  // With the settings as loaded, no header shows an icon.
  lemma DefaultSettingsShowNoIcon(field: string, o: HeaderOptions, params: Params,
                                  titleize: string -> string)
    requires SortableHeader(field, o, params, DefaultSettings(), titleize).Ok?
    ensures SortableHeader(field, o, params, DefaultSettings(), titleize).value.linkLabel
         == [Text(LabelText(field, o, titleize))]
  {
  }
}
