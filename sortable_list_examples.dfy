// The helper's own usage examples: the `first_name` column with an empty
// request, with the request sorted by it either way, with `descend`,
// `default` and `label`, and with icons before and after the text.
module SortableListExamples {
  import opened Wrappers
  import opened RubyText
  import opened SortableListHelper
  import opened SortableListLaws

  // The three icons the examples configure, placed at `position`.
  function Icons(position: Position): Settings {
    Settings(Some("down.png"), Some("up.png"), Some("neutral.png"), position)
  }

  // The request `{sort: s}`.
  function Sorted(s: string): Params {
    map[SortKey := s]
  }

  lemma FirstNameIsWord()
    ensures IsWord("first_name")
  {
  }

  // A header with no sort in the request and no `default`.
  lemma UnsortedRequest(field: string, o: HeaderOptions, settings: Settings, titleize: string -> string)
    requires !o.byDefault && o.className.None?
    ensures SortableHeader(field, o, map[], settings, titleize)
         == Ok(Header(Decorate(LabelText(field, o, titleize), settings.neutralImg, settings.position),
                      field, InitialDir(o), Sorted(SortValue(field, InitialDir(o)))))
  {
    assert map[][SortKey := SortValue(field, InitialDir(o))] == Sorted(SortValue(field, InitialDir(o)));
  }

  lemma RenderCurrent(field: string, d: Dir, o: HeaderOptions, settings: Settings, titleize: string -> string)
    requires o.className.None?
    ensures Render(field, o, Sorted(SortValue(field, d)), Some(CurrentSort(Some(field), Some(DirName(d)))),
                   settings, titleize)
         == Header(Decorate(LabelText(field, o, titleize),
                            if d == Desc then settings.ascImg else settings.descImg, settings.position),
                   field, Opposite(d), Sorted(SortValue(field, Opposite(d))))
  {
    assert Sorted(SortValue(field, d))[SortKey := SortValue(field, Opposite(d))] == Sorted(SortValue(field, Opposite(d)));
  }

  // A header whose own column the request is sorted by in direction `d`.
  lemma SortedRequest(field: string, d: Dir, o: HeaderOptions, settings: Settings, titleize: string -> string)
    requires IsWord(field) && o.className.None?
    ensures SortableHeader(field, o, Sorted(SortValue(field, d)), settings, titleize)
         == Ok(Header(Decorate(LabelText(field, o, titleize),
                               if d == Desc then settings.ascImg else settings.descImg, settings.position),
                      field, Opposite(d), Sorted(SortValue(field, Opposite(d)))))
  {
    ParseLinkSort(field, field, d, o, map[]);
    SortedIs(SortValue(field, d));
    RenderCurrent(field, d, o, settings, titleize);
  }

  lemma FirstNameValues()
    ensures SortValue("first_name", Asc) == "first_name ASC"
    ensures SortValue("first_name", Desc) == "first_name DESC"
  {
  }

  lemma NormalColumn(titleize: string -> string, imageTag: string -> string)
    requires titleize("first_name") == "First Name"
    ensures var r := SortableHeader("first_name", NoOptions(), map[], DefaultSettings(), titleize);
      && r.Ok?
      && r.value.args == Sorted("first_name ASC")
      && Markup(r.value.linkLabel, imageTag) == "First Name"
  {
    UnsortedRequest("first_name", NoOptions(), DefaultSettings(), titleize);
    FirstNameValues();
    MarkupOfDecorate("First Name", None, Before, imageTag);
  }

  lemma DescColumn(titleize: string -> string, imageTag: string -> string)
    requires titleize("first_name") == "First Name"
    ensures var r := SortableHeader("first_name", NoOptions().(descend := true), map[], DefaultSettings(), titleize);
      && r.Ok?
      && r.value.args == Sorted("first_name DESC")
      && Markup(r.value.linkLabel, imageTag) == "First Name"
  {
    UnsortedRequest("first_name", NoOptions().(descend := true), DefaultSettings(), titleize);
    FirstNameValues();
    MarkupOfDecorate("First Name", None, Before, imageTag);
  }

  lemma DefaultColumn(titleize: string -> string, imageTag: string -> string)
    requires titleize("first_name") == "First Name"
    ensures var r := SortableHeader("first_name", NoOptions().(byDefault := true), map[], DefaultSettings(), titleize);
      && r.Ok?
      && r.value.args == Sorted("first_name DESC")
      && Markup(r.value.linkLabel, imageTag) == "First Name"
  {
    var o := NoOptions().(byDefault := true);
    DefaultActsAsOwnSort("first_name", o, map[], DefaultSettings(), titleize);
    assert map[][SortKey := SortValue("first_name", Asc)] == Sorted(SortValue("first_name", Asc));
    FirstNameIsWord();
    SortedRequest("first_name", Asc, NoOptions(), DefaultSettings(), titleize);
    FirstNameValues();
    MarkupOfDecorate("First Name", None, Before, imageTag);
  }

  lemma DefaultAndDescColumn(titleize: string -> string, imageTag: string -> string)
    requires titleize("first_name") == "First Name"
    ensures var r := SortableHeader("first_name", NoOptions().(byDefault := true),
                                    Sorted("first_name DESC"), DefaultSettings(), titleize);
      && r.Ok?
      && r.value.args == Sorted("first_name ASC")
      && Markup(r.value.linkLabel, imageTag) == "First Name"
  {
    FirstNameIsWord();
    FirstNameValues();
    SortedRequest("first_name", Desc, NoOptions().(byDefault := true), DefaultSettings(), titleize);
    MarkupOfDecorate("First Name", None, Before, imageTag);
  }

  lemma CurrentAsc(titleize: string -> string, imageTag: string -> string)
    requires titleize("first_name") == "First Name"
    ensures var r := SortableHeader("first_name", NoOptions(), Sorted("first_name ASC"), DefaultSettings(), titleize);
      && r.Ok?
      && r.value.args == Sorted("first_name DESC")
      && Markup(r.value.linkLabel, imageTag) == "First Name"
  {
    FirstNameIsWord();
    FirstNameValues();
    SortedRequest("first_name", Asc, NoOptions(), DefaultSettings(), titleize);
    MarkupOfDecorate("First Name", None, Before, imageTag);
  }

  lemma CurrentDesc(titleize: string -> string, imageTag: string -> string)
    requires titleize("first_name") == "First Name"
    ensures var r := SortableHeader("first_name", NoOptions(), Sorted("first_name DESC"), DefaultSettings(), titleize);
      && r.Ok?
      && r.value.args == Sorted("first_name ASC")
      && Markup(r.value.linkLabel, imageTag) == "First Name"
  {
    FirstNameIsWord();
    FirstNameValues();
    SortedRequest("first_name", Desc, NoOptions(), DefaultSettings(), titleize);
    MarkupOfDecorate("First Name", None, Before, imageTag);
  }

  lemma GivenLabel(titleize: string -> string, imageTag: string -> string)
    ensures var r := SortableHeader("first_name", NoOptions().(givenLabel := Some("First")), map[],
                                    DefaultSettings(), titleize);
      && r.Ok?
      && r.value.args == Sorted("first_name ASC")
      && Markup(r.value.linkLabel, imageTag) == "First"
  {
    UnsortedRequest("first_name", NoOptions().(givenLabel := Some("First")), DefaultSettings(), titleize);
    FirstNameValues();
    MarkupOfDecorate("First", None, Before, imageTag);
  }

  // The icons at `position`: neutral with an empty request, then sorted
  // DESC and ASC by the column.
  lemma ImagesAt(position: Position, titleize: string -> string, imageTag: string -> string)
    requires titleize("first_name") == "First Name"
    ensures var r := SortableHeader("first_name", NoOptions(), map[], Icons(position), titleize);
      && r.Ok?
      && r.value.args == Sorted("first_name ASC")
      && Markup(r.value.linkLabel, imageTag) == Markup(Decorate("First Name", Some("neutral.png"), position), imageTag)
    ensures var r := SortableHeader("first_name", NoOptions(), Sorted("first_name DESC"), Icons(position), titleize);
      && r.Ok?
      && r.value.args == Sorted("first_name ASC")
      && Markup(r.value.linkLabel, imageTag) == Markup(Decorate("First Name", Some("down.png"), position), imageTag)
    ensures var r := SortableHeader("first_name", NoOptions(), Sorted("first_name ASC"), Icons(position), titleize);
      && r.Ok?
      && r.value.args == Sorted("first_name DESC")
      && Markup(r.value.linkLabel, imageTag) == Markup(Decorate("First Name", Some("up.png"), position), imageTag)
  {
    FirstNameIsWord();
    FirstNameValues();
    UnsortedRequest("first_name", NoOptions(), Icons(position), titleize);
    SortedRequest("first_name", Desc, NoOptions(), Icons(position), titleize);
    SortedRequest("first_name", Asc, NoOptions(), Icons(position), titleize);
  }

  lemma IconThenText(img: string)
    ensures img + "&nbsp;" + "First Name" == img + "&nbsp;First Name"
  {
    assert "&nbsp;" + "First Name" == "&nbsp;First Name";
  }

  lemma TextThenIcon(img: string)
    ensures "First Name" + "&nbsp;" + img == "First Name&nbsp;" + img
  {
    assert "First Name" + "&nbsp;" == "First Name&nbsp;";
  }

  lemma ImagesPrepend(titleize: string -> string, imageTag: string -> string)
    requires titleize("first_name") == "First Name"
    ensures var r := SortableHeader("first_name", NoOptions(), map[], Icons(Before), titleize);
      && r.Ok?
      && r.value.args == Sorted("first_name ASC")
      && Markup(r.value.linkLabel, imageTag) == imageTag("neutral.png") + "&nbsp;First Name"
    ensures var r := SortableHeader("first_name", NoOptions(), Sorted("first_name DESC"), Icons(Before), titleize);
      && r.Ok?
      && r.value.args == Sorted("first_name ASC")
      && Markup(r.value.linkLabel, imageTag) == imageTag("down.png") + "&nbsp;First Name"
    ensures var r := SortableHeader("first_name", NoOptions(), Sorted("first_name ASC"), Icons(Before), titleize);
      && r.Ok?
      && r.value.args == Sorted("first_name DESC")
      && Markup(r.value.linkLabel, imageTag) == imageTag("up.png") + "&nbsp;First Name"
  {
    ImagesAt(Before, titleize, imageTag);
    MarkupOfDecorate("First Name", Some("neutral.png"), Before, imageTag);
    IconThenText(imageTag("neutral.png"));
    MarkupOfDecorate("First Name", Some("down.png"), Before, imageTag);
    IconThenText(imageTag("down.png"));
    MarkupOfDecorate("First Name", Some("up.png"), Before, imageTag);
    IconThenText(imageTag("up.png"));
  }

  lemma ImagesAppend(titleize: string -> string, imageTag: string -> string)
    requires titleize("first_name") == "First Name"
    ensures var r := SortableHeader("first_name", NoOptions(), map[], Icons(After), titleize);
      && r.Ok?
      && r.value.args == Sorted("first_name ASC")
      && Markup(r.value.linkLabel, imageTag) == "First Name&nbsp;" + imageTag("neutral.png")
    ensures var r := SortableHeader("first_name", NoOptions(), Sorted("first_name DESC"), Icons(After), titleize);
      && r.Ok?
      && r.value.args == Sorted("first_name ASC")
      && Markup(r.value.linkLabel, imageTag) == "First Name&nbsp;" + imageTag("down.png")
    ensures var r := SortableHeader("first_name", NoOptions(), Sorted("first_name ASC"), Icons(After), titleize);
      && r.Ok?
      && r.value.args == Sorted("first_name DESC")
      && Markup(r.value.linkLabel, imageTag) == "First Name&nbsp;" + imageTag("up.png")
  {
    ImagesAt(After, titleize, imageTag);
    MarkupOfDecorate("First Name", Some("neutral.png"), After, imageTag);
    TextThenIcon(imageTag("neutral.png"));
    MarkupOfDecorate("First Name", Some("down.png"), After, imageTag);
    TextThenIcon(imageTag("down.png"));
    MarkupOfDecorate("First Name", Some("up.png"), After, imageTag);
    TextThenIcon(imageTag("up.png"));
  }

  // `","` as the request's sort raises instead of rendering.
  lemma LoneCommaRaises(titleize: string -> string)
    ensures SortableHeader("first_name", NoOptions(), Sorted(","), DefaultSettings(), titleize).Err?
  {
    RaisesIff("first_name", NoOptions(), Sorted(","), DefaultSettings(), titleize);
    assert OnlySpacesAndCommas(",") by {
      assert IsComma(","[0]);
    }
  }

  // Only the first segment of `"last_name ASC, first_name ASC"` is read, and
  // extra white space around the words is ignored.
  lemma FirstSegmentOnly(titleize: string -> string)
    ensures var r := SortableHeader("last_name", NoOptions(), Sorted("last_name ASC, first_name ASC"),
                                    DefaultSettings(), titleize);
      r.Ok? && r.value.dir == Desc
  {
    var a, b := SortValue("last_name", Asc), " first_name ASC";
    assert a == "last_name ASC";
    assert a + "," + b == "last_name ASC, first_name ASC";
    assert IsWord("last_name");
    SortValueIsPresent("last_name", Asc);
    SortValueHasNoComma("last_name", "ASC");
    LaterSegmentsIgnored("last_name", a, b, NoOptions(), map[], DefaultSettings(), titleize);
    SortedIs(a + "," + b);
    SortedIs(a);
    SortedRequest("last_name", Asc, NoOptions(), DefaultSettings(), titleize);
  }

  // `" first_name ASC"` splits into an empty field and `first_name`, so the
  // `first_name` header is not current and keeps ASC.
  lemma LeadingSpaceExample(titleize: string -> string)
    ensures var r := SortableHeader("first_name", NoOptions(), Sorted(" first_name ASC"), DefaultSettings(), titleize);
      r.Ok? && r.value.dir == Asc
  {
    var t := SortValue("first_name", Asc);
    assert t == "first_name ASC";
    assert " " + t == " first_name ASC";
    assert AllSpace(" ") by {
      assert IsSpace(" "[0]);
    }
    SortValueHasNoComma("first_name", "ASC");
    assert !IsSpace(t[0]) && !IsBlankChar((" " + t)[1]);
    SortedIs(" " + t);
    LeadingSpaceIsNeverCurrent("first_name", " ", t, NoOptions(), Sorted(" " + t), DefaultSettings(), titleize);
  }

  // A tab between the field and the direction reads like a space.
  lemma TabSeparatedSort(titleize: string -> string)
    ensures var r := SortableHeader("first_name", NoOptions(), Sorted("first_name\tDESC"), DefaultSettings(), titleize);
      r.Ok? && r.value.dir == Asc
  {
    assert "first_name" + "\t" + "DESC" + "" == "first_name\tDESC";
    assert AllSpace("\t") by {
      assert IsSpace("\t"[0]);
    }
    FirstNameIsWord();
    assert IsWord("DESC");
    assert !IsBlankChar("first_name\tDESC"[0]);
    SortedIs("first_name\tDESC");
    SortValueToggles("first_name", "\t", "DESC", "", NoOptions(), Sorted("first_name\tDESC"), DefaultSettings(), titleize);
  }

  // With a blank first segment, what follows the comma decides: `" ,"`
  // raises, while `" ,x"` and `" "` read no field at all.
  lemma BlankSegmentThenCommaRaises()
    ensures ParseSort(" ,").Err?
  {
    assert " " + "," + "" == " ,";
    assert AllSpace(" ") by {
      assert IsSpace(" "[0]);
    }
    ParseSortOfBlankSegment(" ", "");
  }

  lemma BlankSegmentThenWord()
    ensures ParseSort(" ,x") == Ok(CurrentSort(None, None))
  {
    assert " " + "," + "x" == " ,x";
    assert AllSpace(" ") by {
      assert IsSpace(" "[0]);
    }
    assert !IsSpace("x"[0]) && !IsComma("x"[0]);
    ParseSortOfBlankSegment(" ", "x");
  }

  lemma BlankSortOnly()
    ensures ParseSort(" ") == Ok(CurrentSort(None, None))
  {
    assert ',' !in " ";
  }

  // On a `default` column, `" ,x"` is a present sort that makes no column
  // current, so the link keeps ASC.
  lemma BlankSegmentOnDefaultColumn(titleize: string -> string)
    ensures var r := SortableHeader("first_name", NoOptions().(byDefault := true), Sorted(" ,x"),
                                    DefaultSettings(), titleize);
      r.Ok? && r.value.dir == Asc
  {
    assert " " + "," + "x" == " ,x";
    assert AllSpace(" ") by {
      assert IsSpace(" "[0]);
    }
    assert !IsSpace("x"[0]) && !IsComma("x"[0]);
    assert !IsBlankChar(" ,x"[2]);
    BlankSegmentIsNeverCurrent("first_name", " ", "x", NoOptions().(byDefault := true), Sorted(" ,x"),
                               DefaultSettings(), titleize);
  }

  // `" "` alone is blank, so the default applies and the link asks for DESC.
  lemma BlankSortOnDefaultColumn(titleize: string -> string)
    ensures var r := SortableHeader("first_name", NoOptions().(byDefault := true), Sorted(" "),
                                    DefaultSettings(), titleize);
      r.Ok? && r.value.dir == Desc
  {
    assert IsBlankChar(" "[0]);
    FirstNameIsWord();
    DefaultColumnStartsToggled("first_name", NoOptions().(byDefault := true), Sorted(" "), DefaultSettings(), titleize);
  }

  lemma SortedIs(s: string)
    ensures map[][SortKey := s] == Sorted(s)
  {
  }
}
