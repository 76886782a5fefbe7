// The pieces of Ruby's and ActiveSupport's string handling that the sortable
// header relies on: `blank?`/`present?`, and `String#split` with the two
// regular expressions `/\s*,\s*/` and `/\s+/`, including Ruby's rule that a
// split without a limit drops the trailing empty fields.
module RubyText {
  import opened Wrappers

  // A character matched by `\s` in a Ruby regular expression.
  predicate IsSpace(c: char) {
    c == ' ' || c == '\t' || c == '\n' || c == '\U{B}' || c == '\U{C}' || c == '\r'
  }

  predicate IsComma(c: char) {
    c == ','
  }

  // A character matched by `[[:space:]]`, the class ActiveSupport's `blank?`
  // uses: `\s` and the other characters with the Unicode White_Space property.
  predicate IsBlankChar(c: char) {
    || IsSpace(c)
    || c == '\U{85}' || c == '\U{A0}' || c == '\U{1680}'
    || ('\U{2000}' <= c <= '\U{200A}')
    || c == '\U{2028}' || c == '\U{2029}' || c == '\U{202F}' || c == '\U{205F}' || c == '\U{3000}'
  }

  // `s.blank?`: empty, or made only of white space.
  predicate Blank(s: string) {
    forall i :: 0 <= i < |s| ==> IsBlankChar(s[i])
  }

  // `s.present?`
  predicate Present(s: string) {
    !Blank(s)
  }

  predicate NoSpace(s: string) {
    forall i :: 0 <= i < |s| ==> !IsSpace(s[i])
  }

  predicate NoComma(s: string) {
    forall i :: 0 <= i < |s| ==> !IsComma(s[i])
  }

  predicate AllSpace(s: string) {
    forall i :: 0 <= i < |s| ==> IsSpace(s[i])
  }

  // Every character is matched by `\s` or is a comma.
  predicate OnlySpacesAndCommas(s: string) {
    forall i :: 0 <= i < |s| ==> IsSpace(s[i]) || IsComma(s[i])
  }

  // The index of the first `\s` character of `s`, or `|s|` when there is none.
  function FirstSpace(s: string): (i: nat)
    ensures i <= |s|
    ensures i < |s| ==> IsSpace(s[i])
    ensures forall j :: 0 <= j < i ==> !IsSpace(s[j])
  {
    if |s| == 0 || IsSpace(s[0]) then 0 else 1 + FirstSpace(s[1..])
  }

  // The index of the first comma of `s`, or `|s|` when there is none.
  function FirstComma(s: string): (i: nat)
    ensures i <= |s|
    ensures i < |s| ==> IsComma(s[i])
    ensures forall j :: 0 <= j < i ==> !IsComma(s[j])
  {
    if |s| == 0 || IsComma(s[0]) then 0 else 1 + FirstComma(s[1..])
  }

  // `s` without its leading `\s` characters.
  function TrimLeft(s: string): (r: string)
    ensures |r| <= |s|
  {
    if |s| > 0 && IsSpace(s[0]) then TrimLeft(s[1..]) else s
  }

  // What `TrimLeft` leaves is a suffix of `s` that does not start with white
  // space, and what it removes is white space.
  lemma {:induction false} TrimLeftIsSuffix(s: string)
    ensures var r := TrimLeft(s);
      && r == s[|s| - |r|..]
      && (forall i :: 0 <= i < |s| - |r| ==> IsSpace(s[i]))
      && (r == [] || !IsSpace(r[0]))
    decreases |s|
  {
    if |s| > 0 && IsSpace(s[0]) {
      TrimLeftIsSuffix(s[1..]);
      assert s[1..][|s| - 1 - |TrimLeft(s)|..] == s[|s| - |TrimLeft(s)|..];
      forall i | 1 <= i < |s| - |TrimLeft(s)| ensures IsSpace(s[i]) {
        assert s[i] == s[1..][i - 1];
      }
    }
  }

  // `s` without its trailing `\s` characters.
  function TrimRight(s: string): (r: string)
    ensures |r| <= |s|
  {
    if |s| > 0 && IsSpace(s[|s| - 1]) then TrimRight(s[..|s| - 1]) else s
  }

  // What `TrimRight` leaves is a prefix of `s` that does not end in white
  // space, and what it removes is white space.
  lemma {:induction false} TrimRightIsPrefix(s: string)
    ensures var r := TrimRight(s);
      && r == s[..|r|]
      && (forall i :: |r| <= i < |s| ==> IsSpace(s[i]))
      && (r == [] || !IsSpace(r[|r| - 1]))
    decreases |s|
  {
    if |s| > 0 && IsSpace(s[|s| - 1]) {
      TrimRightIsPrefix(s[..|s| - 1]);
      assert s[..|s| - 1][..|TrimRight(s)|] == s[..|TrimRight(s)|];
    }
  }

  // The fields `s.split(/\s*,\s*/)` cuts `s` into, before the trailing empty
  // ones are dropped. The leftmost match of the separator starts where the
  // run of white space before the first comma starts and swallows the white
  // space after that comma, so a field never holds a comma and never ends in
  // white space (`CommaFieldsStartTrimmed` shows the other end).
  function CommaFields(s: string): (r: seq<string>)
    ensures |r| >= 1
    ensures FieldsHaveNoComma(r) && InnerFieldsTrimmed(r)
    decreases |s|
  {
    var c := FirstComma(s);
    if c == |s| then
      assert [s][0] == s;
      [s]
    else
      var rest := TrimLeft(s[c + 1..]);
      var head := TrimRight(s[..c]);
      FieldBeforeFirstComma(s);
      ConsTrimmedField(head, CommaFields(rest));
      [head] + CommaFields(rest)
  }

  predicate FieldsHaveNoComma(fs: seq<string>) {
    forall k :: 0 <= k < |fs| ==> NoComma(fs[k])
  }

  // Every field but the last is empty or does not end in white space.
  predicate InnerFieldsTrimmed(fs: seq<string>) {
    forall k :: 0 <= k < |fs| - 1 ==> fs[k] == [] || !IsSpace(fs[k][|fs[k]| - 1])
  }

  lemma ConsTrimmedField(h: string, fs: seq<string>)
    requires NoComma(h) && (h == [] || !IsSpace(h[|h| - 1]))
    requires FieldsHaveNoComma(fs) && InnerFieldsTrimmed(fs)
    ensures FieldsHaveNoComma([h] + fs) && InnerFieldsTrimmed([h] + fs)
  {
    var r := [h] + fs;
    forall k | 0 < k < |r| ensures r[k] == fs[k - 1] {
    }
  }

  // `s` holds a comma.
  predicate HasComma(s: string) {
    FirstComma(s) < |s|
  }

  lemma HasCommaIff(s: string)
    ensures HasComma(s) <==> ',' in s
  {
    if ',' in s {
      var j :| 0 <= j < |s| && s[j] == ',';
      assert IsComma(s[j]);
    }
  }

  // The text before the first comma, without its trailing white space, is a
  // prefix of `s` that holds no comma and does not end in white space.
  lemma FieldBeforeFirstComma(s: string)
    requires FirstComma(s) < |s|
    ensures var h := TrimRight(s[..FirstComma(s)]);
      |h| <= FirstComma(s) && h == s[..|h|] && NoComma(h) && (h == [] || !IsSpace(h[|h| - 1]))
  {
    var c := FirstComma(s);
    var h := TrimRight(s[..c]);
    TrimRightIsPrefix(s[..c]);
    forall j | 0 <= j < |h| ensures !IsComma(h[j]) {
      assert h[j] == s[j];
    }
  }

  // The fields `s.split(/\s+/)` cuts `s` into, before the trailing empty ones
  // are dropped. A run of white space separates two fields, so no field holds
  // white space, and only the first field (after leading white space) and the
  // last (after trailing white space) can be empty.
  function SpaceFields(s: string): (r: seq<string>)
    ensures |r| >= 1
    ensures FieldsHaveNoSpace(r)
    ensures |s| > 0 && !IsSpace(s[0]) ==> r[0] != []
    ensures InnerFieldsNonEmpty(r)
    decreases |s|
  {
    var i := FirstSpace(s);
    if i == |s| then
      assert [s][0] == s;
      [s]
    else
      var rest := TrimLeft(s[i..]);
      TrimLeftIsSuffix(s[i..]);
      WordBeforeFirstSpace(s);
      ConsWordField(s[..i], SpaceFields(rest), rest != []);
      [s[..i]] + SpaceFields(rest)
  }

  predicate FieldsHaveNoSpace(fs: seq<string>) {
    forall k :: 0 <= k < |fs| ==> NoSpace(fs[k])
  }

  // Every field but the first and the last is non-empty.
  predicate InnerFieldsNonEmpty(fs: seq<string>) {
    forall k :: 0 < k < |fs| - 1 ==> fs[k] != []
  }

  // The text before the first space holds no space.
  lemma WordBeforeFirstSpace(s: string)
    requires FirstSpace(s) <= |s|
    ensures NoSpace(s[..FirstSpace(s)])
  {
    var w := s[..FirstSpace(s)];
    forall j | 0 <= j < |w| ensures !IsSpace(w[j]) {
      assert w[j] == s[j];
    }
  }

  lemma ConsWordField(w: string, fs: seq<string>, headNonEmpty: bool)
    requires NoSpace(w) && |fs| >= 1 && FieldsHaveNoSpace(fs) && InnerFieldsNonEmpty(fs)
    requires headNonEmpty ==> fs[0] != []
    requires |fs| > 1 ==> headNonEmpty
    ensures FieldsHaveNoSpace([w] + fs) && InnerFieldsNonEmpty([w] + fs) && ([w] + fs)[0] == w
  {
    var r := [w] + fs;
    forall k | 0 < k < |r| ensures r[k] == fs[k - 1] {
    }
  }

  // Ruby's `split` without a limit drops the trailing empty fields.
  function DropTrailingEmpty(fs: seq<string>): (r: seq<string>)
    ensures |r| <= |fs| && r == fs[..|r|]
    ensures r == [] || r[|r| - 1] != []
    ensures forall k :: |r| <= k < |fs| ==> fs[k] == []
  {
    if |fs| > 0 && fs[|fs| - 1] == [] then DropTrailingEmpty(fs[..|fs| - 1]) else fs
  }

  // `s.split(/\s*,\s*/)`
  function SplitOnCommas(s: string): seq<string> {
    DropTrailingEmpty(CommaFields(s))
  }

  // `s.split(/\s+/)`
  function SplitOnSpaces(s: string): seq<string> {
    DropTrailingEmpty(SpaceFields(s))
  }

  // Element `k` of an array, or `nil` past its end: what a multiple assignment binds.
  function At(xs: seq<string>, k: nat): (r: Option<string>)
    ensures r.Some? <==> k < |xs|
    ensures k < |xs| ==> r.value == xs[k]
  {
    if k < |xs| then Some(xs[k]) else None
  }

  predicate AllEmpty(fs: seq<string>) {
    forall k :: 0 <= k < |fs| ==> |fs[k]| == 0
  }


  // `FirstSpace` is pinned down by its contract.
  lemma FirstSpaceIs(s: string, i: nat)
    requires i <= |s| && (i < |s| ==> IsSpace(s[i]))
    requires forall j :: 0 <= j < i ==> !IsSpace(s[j])
    ensures FirstSpace(s) == i
  {
  }

  // `FirstComma` is pinned down by its contract.
  lemma FirstCommaIs(s: string, i: nat)
    requires i <= |s| && (i < |s| ==> IsComma(s[i]))
    requires forall j :: 0 <= j < i ==> !IsComma(s[j])
    ensures FirstComma(s) == i
  {
  }

  lemma SpaceFieldsStep(s: string)
    requires FirstSpace(s) < |s|
    ensures SpaceFields(s) == [s[..FirstSpace(s)]] + SpaceFields(TrimLeft(s[FirstSpace(s)..]))
  {
  }

  lemma SpaceFieldsOfWord(s: string)
    requires NoSpace(s)
    ensures SpaceFields(s) == [s]
  {
    FirstSpaceIs(s, |s|);
  }

  lemma CommaFieldsStep(s: string)
    requires FirstComma(s) < |s|
    ensures CommaFields(s) == [TrimRight(s[..FirstComma(s)])] + CommaFields(TrimLeft(s[FirstComma(s) + 1..]))
  {
  }

  lemma CommaFieldsWithoutComma(s: string)
    requires NoComma(s)
    ensures CommaFields(s) == [s]
  {
    FirstCommaIs(s, |s|);
  }

  lemma AllEmptyCons(a: string, fs: seq<string>)
    ensures AllEmpty([a] + fs) <==> a == [] && AllEmpty(fs)
  {
    if a == [] && AllEmpty(fs) {
      forall k | 0 <= k < |fs| + 1 ensures ([a] + fs)[k] == [] {
        if k > 0 {
          assert ([a] + fs)[k] == fs[k - 1];
        }
      }
    }
    if AllEmpty([a] + fs) {
      assert ([a] + fs)[0] == a;
      forall k | 0 <= k < |fs| ensures fs[k] == [] {
        assert fs[k] == ([a] + fs)[k + 1];
      }
    }
  }

  // Dropping trailing empty fields leaves nothing exactly when every field is empty.
  lemma DropTrailingEmptyIsEmptyIff(fs: seq<string>)
    ensures DropTrailingEmpty(fs) == [] <==> AllEmpty(fs)
  {
    var r := DropTrailingEmpty(fs);
    if r != [] {
      assert fs[|r| - 1] == r[|r| - 1];
    }
  }

  // A non-empty first field survives the dropping of trailing empty ones.
  lemma DropTrailingEmptyKeepsHead(fs: seq<string>)
    requires |fs| > 0 && fs[0] != []
    ensures |DropTrailingEmpty(fs)| > 0 && DropTrailingEmpty(fs)[0] == fs[0]
  {
    DropTrailingEmptyIsEmptyIff(fs);
  }

  // Dropping trailing empty fields of `[a] + fs` only depends on `a` and on
  // what is left of `fs`.
  lemma {:induction false} DropTrailingEmptyCons(a: string, fs: seq<string>)
    ensures DropTrailingEmpty([a] + fs) ==
      if a == [] && DropTrailingEmpty(fs) == [] then [] else [a] + DropTrailingEmpty(fs)
    decreases |fs|
  {
    if |fs| > 0 && fs[|fs| - 1] == [] {
      DropLastEmptyOfCons(a, fs);
      DropTrailingEmptyCons(a, fs[..|fs| - 1]);
    } else if fs == [] {
      assert [a] + fs == [a];
    }
  }

  // An empty last field of `[a] + fs` is the last field of `fs`.
  lemma DropLastEmptyOfCons(a: string, fs: seq<string>)
    requires |fs| > 0 && fs[|fs| - 1] == []
    ensures DropTrailingEmpty([a] + fs) == DropTrailingEmpty([a] + fs[..|fs| - 1])
    ensures DropTrailingEmpty(fs) == DropTrailingEmpty(fs[..|fs| - 1])
  {
    ConsLast(a, fs);
  }

  lemma ConsLast(a: string, fs: seq<string>)
    requires |fs| > 0
    ensures ([a] + fs)[|fs|] == fs[|fs| - 1]
    ensures ([a] + fs)[..|fs|] == [a] + fs[..|fs| - 1]
  {
  }

  // Leading white space is trimmed from the head; a tail after some
  // non-space character is untouched.
  lemma {:induction false} TrimLeftAppend(u: string, w: string)
    requires !AllSpace(u)
    ensures TrimLeft(u + w) == TrimLeft(u) + w
  {
    if IsSpace(u[0]) {
      assert (u + w)[1..] == u[1..] + w;
      TrimLeftAppend(u[1..], w);
    }
  }

  lemma TrimRightIsEmptyIff(u: string)
    ensures TrimRight(u) == [] <==> AllSpace(u)
  {
  }

  // At its first comma, a string is made of spaces and commas exactly when
  // the text before that comma is white space and the text after it is made
  // of spaces and commas.
  lemma OnlySpacesAndCommasCut(s: string, c: nat)
    requires c < |s| && IsComma(s[c])
    requires forall j :: 0 <= j < c ==> !IsComma(s[j])
    ensures OnlySpacesAndCommas(s) <==> AllSpace(s[..c]) && OnlySpacesAndCommas(s[c + 1..])
  {
    if OnlySpacesAndCommas(s) {
      SeparatorsBeforeComma(s, c);
      SeparatorsAfter(s, c + 1);
    }
    if AllSpace(s[..c]) && OnlySpacesAndCommas(s[c + 1..]) {
      SeparatorsJoin(s, c);
    }
  }

  lemma SeparatorsBeforeComma(s: string, c: nat)
    requires c <= |s| && OnlySpacesAndCommas(s)
    requires forall j :: 0 <= j < c ==> !IsComma(s[j])
    ensures AllSpace(s[..c])
  {
    forall i | 0 <= i < c ensures IsSpace(s[..c][i]) {
      assert s[..c][i] == s[i];
    }
  }

  lemma SeparatorsAfter(s: string, k: nat)
    requires k <= |s| && OnlySpacesAndCommas(s)
    ensures OnlySpacesAndCommas(s[k..])
  {
    forall i | 0 <= i < |s| - k ensures IsSpace(s[k..][i]) || IsComma(s[k..][i]) {
      assert s[k..][i] == s[k + i];
    }
  }

  lemma SeparatorsJoin(s: string, c: nat)
    requires c < |s| && IsComma(s[c])
    requires AllSpace(s[..c]) && OnlySpacesAndCommas(s[c + 1..])
    ensures OnlySpacesAndCommas(s)
  {
    forall i | 0 <= i < |s| ensures IsSpace(s[i]) || IsComma(s[i]) {
      if i < c {
        assert s[i] == s[..c][i];
      } else if c < i {
        assert s[i] == s[c + 1..][i - c - 1];
      }
    }
  }

  // Leading white space does not change whether a string is made of spaces
  // and commas.
  lemma {:induction false} OnlySpacesAndCommasTrimLeft(t: string)
    ensures OnlySpacesAndCommas(t) <==> OnlySpacesAndCommas(TrimLeft(t))
    decreases |t|
  {
    if |t| > 0 && IsSpace(t[0]) {
      OnlySpacesAndCommasTail(t);
      OnlySpacesAndCommasTrimLeft(t[1..]);
    }
  }

  lemma OnlySpacesAndCommasTail(t: string)
    requires |t| > 0 && IsSpace(t[0])
    ensures OnlySpacesAndCommas(t) <==> OnlySpacesAndCommas(t[1..])
  {
    if OnlySpacesAndCommas(t[1..]) {
      forall i | 0 < i < |t| ensures IsSpace(t[i]) || IsComma(t[i]) {
        assert t[i] == t[1..][i - 1];
      }
    }
  }

  lemma OnlySpacesAndCommasAtComma(s: string, c: nat)
    requires c < |s| && IsComma(s[c])
    requires forall j :: 0 <= j < c ==> !IsComma(s[j])
    ensures OnlySpacesAndCommas(s) <==> AllSpace(s[..c]) && OnlySpacesAndCommas(TrimLeft(s[c + 1..]))
  {
    OnlySpacesAndCommasCut(s, c);
    OnlySpacesAndCommasTrimLeft(s[c + 1..]);
  }



  lemma CommaFieldsAllEmptyWithoutComma(s: string)
    requires FirstComma(s) == |s|
    ensures AllEmpty(CommaFields(s)) <==> OnlySpacesAndCommas(s) && (s == [] || HasComma(s))
  {
    assert CommaFields(s) == [s];
    assert AllEmpty([s]) <==> s == [] by {
      if s != [] {
        assert [s][0] != [];
      }
    }
  }

  // The fields of `s.split(/\s*,\s*/)` are all empty exactly when `s` is made
  // of `\s` characters and commas and is empty or holds a comma.
  lemma {:induction false} CommaFieldsAllEmptyIff(s: string)
    ensures AllEmpty(CommaFields(s)) <==> OnlySpacesAndCommas(s) && (s == [] || HasComma(s))
    decreases |s|, 1
  {
    if FirstComma(s) == |s| {
      CommaFieldsAllEmptyWithoutComma(s);
    } else {
      CommaFieldsAllEmptyWithComma(s);
    }
  }

  // The comma case of the lemma above, by the lemma for what follows the
  // first comma.
  lemma {:induction false} CommaFieldsAllEmptyWithComma(s: string)
    requires FirstComma(s) < |s|
    ensures AllEmpty(CommaFields(s)) <==> OnlySpacesAndCommas(s) && (s == [] || HasComma(s))
    decreases |s|, 0
  {
    CommaFieldsAllEmptyIff(TrimLeft(s[FirstComma(s) + 1..]));
    CommaSplitAt(s, FirstComma(s));
    NoCommaBeforeFirst(s);
    CommaFieldsAllEmptyAt(s[..FirstComma(s)], s[FirstComma(s) + 1..]);
  }

  // The step of the lemma above for `pre + "," + post`, given the lemma for
  // what follows the separator.
  lemma CommaFieldsAllEmptyAt(pre: string, post: string)
    requires NoComma(pre)
    requires AllEmpty(CommaFields(TrimLeft(post))) <==>
             OnlySpacesAndCommas(TrimLeft(post)) && (TrimLeft(post) == [] || HasComma(TrimLeft(post)))
    ensures AllEmpty(CommaFields(pre + "," + post)) <==>
            OnlySpacesAndCommas(pre + "," + post) && (pre + "," + post == [] || HasComma(pre + "," + post))
  {
    TrimLeftIsSuffix(post);
    TrimmedAllEmptyIff(TrimLeft(post));
    AllEmptyCommaFieldsAt(pre, post);
    CommaCutParts(pre, post);
    OnlySpacesAndCommasAtComma(pre + "," + post, |pre|);
  }

  // After trimming, "empty or holding a comma" adds nothing to "made of
  // white space and commas".
  lemma TrimmedAllEmptyIff(rest: string)
    requires rest == [] || !IsSpace(rest[0])
    requires AllEmpty(CommaFields(rest)) <==> OnlySpacesAndCommas(rest) && (rest == [] || HasComma(rest))
    ensures AllEmpty(CommaFields(rest)) <==> OnlySpacesAndCommas(rest)
  {
    TrimmedSeparatorsHoldComma(rest);
  }

  lemma NoCommaBeforeFirst(s: string)
    ensures NoComma(s[..FirstComma(s)])
  {
    forall i | 0 <= i < FirstComma(s) ensures !IsComma(s[..FirstComma(s)][i]) {
      assert s[..FirstComma(s)][i] == s[i];
    }
  }

  // The fields of `pre + "," + post`, for `pre` without a comma, are all
  // empty exactly when `pre` is white space and those of what follows the
  // separator are all empty.
  lemma AllEmptyCommaFieldsAt(pre: string, post: string)
    requires NoComma(pre)
    ensures AllEmpty(CommaFields(pre + "," + post)) <==>
            AllSpace(pre) && AllEmpty(CommaFields(TrimLeft(post)))
  {
    CommaFieldsAt(pre, post);
    AllEmptyOfCons(CommaFields(pre + "," + post), TrimRight(pre), CommaFields(TrimLeft(post)));
    TrimRightIsEmptyIff(pre);
  }

  lemma CommaFieldsAt(pre: string, post: string)
    requires NoComma(pre)
    ensures CommaFields(pre + "," + post) == [TrimRight(pre)] + CommaFields(TrimLeft(post))
  {
    CommaCutParts(pre, post);
    CommaFieldsStep(pre + "," + post);
  }

  lemma CommaCutParts(pre: string, post: string)
    requires NoComma(pre)
    ensures FirstComma(pre + "," + post) == |pre|
    ensures (pre + "," + post)[..|pre|] == pre && (pre + "," + post)[|pre| + 1..] == post
  {
    FirstCommaIs(pre + "," + post, |pre|);
  }

  lemma AllEmptyOfCons(fs: seq<string>, a: string, rest: seq<string>)
    requires fs == [a] + rest
    ensures AllEmpty(fs) <==> a == [] && AllEmpty(rest)
  {
    AllEmptyCons(a, rest);
  }

  // A string with no leading white space that is made of white space and
  // commas, and is not empty, starts with a comma.
  lemma TrimmedSeparatorsHoldComma(rest: string)
    requires rest == [] || !IsSpace(rest[0])
    ensures OnlySpacesAndCommas(rest) && rest != [] ==> HasComma(rest)
  {
    if rest != [] && OnlySpacesAndCommas(rest) {
      assert IsComma(rest[0]);
      FirstCommaIs(rest, 0);
    }
  }

  // `s.split(/\s*,\s*/)` is empty, so that `.first` is nil, exactly when `s`
  // is made of `\s` characters and commas and is empty or holds a comma.
  lemma SplitOnCommasIsEmptyIff(s: string)
    ensures SplitOnCommas(s) == [] <==> OnlySpacesAndCommas(s) && (s == [] || ',' in s)
  {
    DropTrailingEmptyIsEmptyIff(CommaFields(s));
    CommaFieldsAllEmptyIff(s);
    HasCommaIff(s);
  }

  // Without a comma there is nothing to split on.
  lemma SplitOnCommasWithoutComma(a: string)
    requires NoComma(a) && a != []
    ensures SplitOnCommas(a) == [a]
  {
    CommaFieldsWithoutComma(a);
  }

  // With a comma after a comma-free prefix that holds a non-space character,
  // the first segment is that prefix without its trailing white space.
  lemma SplitOnCommasHead(a: string, b: string)
    requires NoComma(a) && !AllSpace(a)
    ensures |SplitOnCommas(a + "," + b)| > 0 && SplitOnCommas(a + "," + b)[0] == TrimRight(a)
  {
    var s := a + "," + b;
    FirstCommaIs(s, |a|);
    assert s[..|a|] == a;
    CommaFieldsStep(s);
    TrimRightIsEmptyIff(a);
    DropTrailingEmptyKeepsHead(CommaFields(s));
  }

  // When the first space ends the last word, only empty fields follow it.
  lemma SpaceFieldsOfWordThenSpaces(x: string, w: string)
    requires NoSpace(x) && AllSpace(w) && w != []
    ensures SpaceFields(x + w) == [x, []]
  {
    var s := x + w;
    FirstSpaceIs(s, |x|);
    SpaceFieldsStep(s);
    assert s[..|x|] == x && s[|x|..] == w;
    TrimLeftSkipsSpaces(w, []);
    assert w + [] == w;
    SpaceFieldsOfWord([]);
  }

  lemma FirstSpaceOfAppend(x: string, w: string, i: nat)
    requires i < |x| && FirstSpace(x) == i
    ensures FirstSpace(x + w) == i && (x + w)[..i] == x[..i] && (x + w)[i..] == x[i..] + w
  {
    FirstSpaceIs(x + w, i);
  }

  lemma SpaceFieldsStepBoth(x: string, w: string, i: nat)
    requires i < |x| && FirstSpace(x) == i
    ensures SpaceFields(x + w) == [x[..i]] + SpaceFields(TrimLeft(x[i..] + w))
  {
    FirstSpaceOfAppend(x, w, i);
    SpaceFieldsStep(x + w);
  }

  lemma DropOneTrailingEmpty(x: string)
    ensures DropTrailingEmpty([x, []]) == DropTrailingEmpty([x])
  {
    assert [x, []][..1] == [x];
  }

  lemma SplitOnSpacesWordThenSpaces(x: string, w: string)
    requires FirstSpace(x) == |x| && AllSpace(w) && w != []
    ensures SplitOnSpaces(x + w) == SplitOnSpaces(x)
  {
    SpaceFieldsOfWordThenSpaces(x, w);
    SpaceFieldsOfWord(x);
    DropOneTrailingEmpty(x);
  }

  lemma SpaceFieldsSpacesThenSpaces(x: string, w: string, i: nat)
    requires i < |x| && FirstSpace(x) == i && AllSpace(x[i..]) && AllSpace(w)
    ensures SpaceFields(x + w) == SpaceFields(x)
  {
    SpaceFieldsStepBoth(x, w, i);
    SpaceFieldsStep(x);
    assert AllSpace(x[i..] + w);
    TrimLeftSkipsSpaces(x[i..] + w, []);
    TrimLeftSkipsSpaces(x[i..], []);
    assert x[i..] + w + [] == x[i..] + w && x[i..] + [] == x[i..];
  }

  // Trailing white space does not change what `split(/\s+/)` returns.
  lemma {:induction false} SplitOnSpacesIgnoresTrailingSpace(x: string, w: string)
    requires AllSpace(w)
    ensures SplitOnSpaces(x + w) == SplitOnSpaces(x)
    decreases |x|
  {
    var i := FirstSpace(x);
    if w == [] {
      assert x + w == x;
    } else if i == |x| {
      SplitOnSpacesWordThenSpaces(x, w);
    } else if AllSpace(x[i..]) {
      SpaceFieldsSpacesThenSpaces(x, w, i);
    } else {
      SpaceFieldsStepBoth(x, w, i);
      SpaceFieldsStep(x);
      TrimLeftAppend(x[i..], w);
      var y := TrimLeft(x[i..]);
      SplitOnSpacesIgnoresTrailingSpace(y, w);
      DropTrailingEmptyCons(x[..i], SpaceFields(y + w));
      DropTrailingEmptyCons(x[..i], SpaceFields(y));
    }
  }

  // Leading white space is all that `TrimLeft` removes.
  lemma {:induction false} TrimLeftSkipsSpaces(w: string, t: string)
    requires AllSpace(w)
    ensures TrimLeft(w + t) == TrimLeft(t)
    decreases |w|
  {
    if w != [] {
      SpacesLead(w, t);
      TrimLeftStep(w + t);
      assert (w + t)[1..] == w[1..] + t;
      AllSpaceTail(w);
      TrimLeftSkipsSpaces(w[1..], t);
    } else {
      assert w + t == t;
    }
  }

  lemma TrimLeftStep(s: string)
    requires s != [] && IsSpace(s[0])
    ensures TrimLeft(s) == TrimLeft(s[1..])
  {
  }

  lemma AllSpaceTail(w: string)
    requires AllSpace(w) && w != []
    ensures AllSpace(w[1..])
  {
    forall j | 0 <= j < |w| - 1 ensures IsSpace(w[1..][j]) {
      assert w[1..][j] == w[j + 1];
    }
  }

  lemma NoCommaAppend(a: string, b: string)
    requires NoComma(a) && NoComma(b)
    ensures NoComma(a + b)
  {
    forall i | 0 <= i < |a + b| ensures !IsComma((a + b)[i]) {
      if i >= |a| {
        assert (a + b)[i] == b[i - |a|];
      }
    }
  }

  // A blank segment before the first comma leaves an empty first field, or
  // no field at all.
  lemma SplitOnCommasOfBlankHead(w: string, t: string)
    requires AllSpace(w)
    ensures SplitOnCommas(w + "," + t) == [] || SplitOnCommas(w + "," + t)[0] == []
  {
    AllSpaceHasNoComma(w);
    CommaFieldsAt(w, t);
    TrimRightIsEmptyIff(w);
  }

  // After a blank segment and its comma, the text is only white space and
  // commas exactly when what follows is.
  lemma OnlySpacesAndCommasAfterBlank(w: string, t: string)
    requires AllSpace(w)
    ensures OnlySpacesAndCommas(w + "," + t) <==> OnlySpacesAndCommas(t)
  {
    if OnlySpacesAndCommas(t) {
      forall i | 0 <= i < |w + "," + t|
        ensures IsSpace((w + "," + t)[i]) || IsComma((w + "," + t)[i])
      {
        if i < |w| {
          assert (w + "," + t)[i] == w[i];
        } else if i > |w| {
          assert (w + "," + t)[i] == t[i - |w| - 1];
        }
      }
    }
    if OnlySpacesAndCommas(w + "," + t) {
      forall j | 0 <= j < |t| ensures IsSpace(t[j]) || IsComma(t[j]) {
        assert (w + "," + t)[|w| + 1 + j] == t[j];
      }
    }
  }

  lemma AllSpaceHasNoComma(w: string)
    requires AllSpace(w)
    ensures NoComma(w)
  {
  }

  // A word followed by white space is cut after the word.
  lemma SpaceFieldsOfWordThen(f: string, t: string)
    requires NoSpace(f) && t != [] && IsSpace(t[0])
    ensures SpaceFields(f + t) == [f] + SpaceFields(TrimLeft(t))
  {
    var s := f + t;
    forall j | 0 <= j < |f| ensures !IsSpace(s[j]) {
      assert s[j] == f[j];
    }
    FirstSpaceIs(s, |f|);
    assert s[..|f|] == f && s[|f|..] == t;
    SpaceFieldsStep(s);
  }

  // A non-empty word followed by nothing or by white space is the first field.
  lemma SpaceFieldsHead(d: string, rest: string)
    requires NoSpace(d) && d != [] && (rest == [] || IsSpace(rest[0]))
    ensures |SpaceFields(d + rest)| >= 1 && SpaceFields(d + rest)[0] == d
  {
    if rest == [] {
      assert d + rest == d;
      SpaceFieldsOfWord(d);
    } else {
      SpaceFieldsOfWordThen(d, rest);
    }
  }

  lemma SpacesLead(w: string, u: string)
    requires AllSpace(w) && w != []
    ensures w + u != [] && IsSpace((w + u)[0])
  {
    assert (w + u)[0] == w[0];
  }

  // White space then a text that does not start with white space.
  lemma TrimLeftOfSpacesThen(w: string, d: string, rest: string)
    requires AllSpace(w) && d != [] && !IsSpace(d[0])
    ensures TrimLeft(w + (d + rest)) == d + rest
  {
    TrimLeftSkipsSpaces(w, d + rest);
    assert (d + rest)[0] == d[0];
  }

  lemma SpaceFieldsOfWordsCons(f: string, d: string, xs: seq<string>)
    requires |xs| >= 1 && xs[0] == d
    ensures |[f] + xs| >= 2 && ([f] + xs)[0] == f && ([f] + xs)[1] == d
  {
  }

  // The text `f`, white space, the word `d` and then nothing or more after
  // white space: its first two fields are `f` and `d`.
  lemma SpaceFieldsOfWords(f: string, w: string, d: string, rest: string)
    requires NoSpace(f) && AllSpace(w) && w != [] && NoSpace(d) && d != []
    requires rest == [] || IsSpace(rest[0])
    ensures |SpaceFields(f + w + d + rest)| >= 2
    ensures SpaceFields(f + w + d + rest)[0] == f && SpaceFields(f + w + d + rest)[1] == d
  {
    assert f + w + d + rest == f + (w + (d + rest));
    SpacesLead(w, d + rest);
    SpaceFieldsOfWordThen(f, w + (d + rest));
    TrimLeftOfSpacesThen(w, d, rest);
    SpaceFieldsHead(d, rest);
    SpaceFieldsOfWordsCons(f, d, SpaceFields(d + rest));
  }

  // A field that is not empty survives the dropping of trailing empty ones.
  lemma DropTrailingEmptyKeepsUpTo(fs: seq<string>, j: nat)
    requires j < |fs| && fs[j] != []
    ensures j < |DropTrailingEmpty(fs)|
  {
  }

  // `split(/\s+/)` of such a text starts with `f` and `d`: Ruby keeps the
  // words in order and drops empty fields only at the end.
  lemma SplitOnSpacesOfWords(f: string, w: string, d: string, rest: string)
    requires NoSpace(f) && AllSpace(w) && w != [] && NoSpace(d) && d != []
    requires rest == [] || IsSpace(rest[0])
    ensures |SplitOnSpaces(f + w + d + rest)| >= 2
    ensures SplitOnSpaces(f + w + d + rest)[0] == f && SplitOnSpaces(f + w + d + rest)[1] == d
  {
    SpaceFieldsOfWords(f, w, d, rest);
    DropTrailingEmptyKeepsUpTo(SpaceFields(f + w + d + rest), 1);
  }

  // The first field of text that starts with white space is empty.
  lemma SpaceFieldsOfLeadingSpace(s: string)
    requires s != [] && IsSpace(s[0])
    ensures SpaceFields(s) == [[]] + SpaceFields(TrimLeft(s))
  {
    FirstSpaceIs(s, 0);
    SpaceFieldsStep(s);
    assert s[0..] == s;
  }

  lemma TrimLeftOfNotAllSpace(w: string, t: string)
    requires AllSpace(w) && !AllSpace(t)
    ensures TrimLeft(w + t) != [] && !IsSpace(TrimLeft(w + t)[0])
  {
    TrimLeftSkipsSpaces(w, t);
    TrimLeftIsSuffix(t);
  }

  // Text that starts with white space and holds more than white space splits
  // into an empty first word and a non-empty second one.
  lemma SplitOnSpacesOfLeadingSpace(w: string, t: string)
    requires AllSpace(w) && w != [] && !AllSpace(t)
    ensures |SplitOnSpaces(w + t)| >= 2
    ensures SplitOnSpaces(w + t)[0] == [] && SplitOnSpaces(w + t)[1] != []
  {
    SpacesLead(w, t);
    SpaceFieldsOfLeadingSpace(w + t);
    TrimLeftOfNotAllSpace(w, t);
    SpaceFieldsOfWordsCons([], SpaceFields(TrimLeft(w + t))[0], SpaceFields(TrimLeft(w + t)));
    DropTrailingEmptyKeepsUpTo(SpaceFields(w + t), 1);
  }

  // The text `fs[0] + gs[0] + fs[1] + ... + fs[|fs| - 1]`: fields joined by
  // the separators between them.
  function Interleave(fs: seq<string>, gs: seq<string>): string
    requires |fs| == |gs| + 1
    decreases |gs|
  {
    if gs == [] then fs[0] else fs[0] + gs[0] + Interleave(fs[1..], gs[1..])
  }

  // The white space `TrimLeft` removes.
  function LeadingSpace(s: string): string {
    if |s| > 0 && IsSpace(s[0]) then [s[0]] + LeadingSpace(s[1..]) else []
  }

  // The white space `TrimRight` removes.
  function TrailingSpace(s: string): string {
    if |s| > 0 && IsSpace(s[|s| - 1]) then TrailingSpace(s[..|s| - 1]) + [s[|s| - 1]] else []
  }

  lemma {:induction false} LeadingSpaceThenTrimLeft(s: string)
    ensures LeadingSpace(s) + TrimLeft(s) == s
    decreases |s|
  {
    if |s| > 0 && IsSpace(s[0]) {
      LeadingSpaceThenTrimLeft(s[1..]);
      TrimLeftStep(s);
      LeadingSpaceStep(s);
      Uncons(s);
      ConsAppend(s[0], LeadingSpace(s[1..]), TrimLeft(s[1..]));
    }
  }

  lemma ConsAppend(c: char, a: string, b: string)
    ensures [c] + a + b == [c] + (a + b)
  {
  }

  lemma {:induction false} LeadingSpaceIsSpace(s: string)
    ensures AllSpace(LeadingSpace(s))
    decreases |s|
  {
    if |s| > 0 && IsSpace(s[0]) {
      LeadingSpaceIsSpace(s[1..]);
      LeadingSpaceStep(s);
      ConsSpace(s[0], LeadingSpace(s[1..]));
    }
  }

  lemma ConsSpace(c: char, a: string)
    requires IsSpace(c) && AllSpace(a)
    ensures AllSpace([c] + a)
  {
    forall j | 0 < j < |a| + 1 ensures ([c] + a)[j] == a[j - 1] {
    }
  }

  lemma LeadingSpaceStep(s: string)
    requires s != [] && IsSpace(s[0])
    ensures LeadingSpace(s) == [s[0]] + LeadingSpace(s[1..])
  {
  }

  lemma Uncons(s: string)
    requires s != []
    ensures s == [s[0]] + s[1..]
  {
  }

  lemma {:induction false} TrimRightThenTrailingSpace(s: string)
    ensures AllSpace(TrailingSpace(s)) && TrimRight(s) + TrailingSpace(s) == s
    decreases |s|
  {
    if |s| > 0 && IsSpace(s[|s| - 1]) {
      TrimRightThenTrailingSpace(s[..|s| - 1]);
      assert s == s[..|s| - 1] + [s[|s| - 1]];
    }
  }

  // The text each match of `/\s*,\s*/` covers, in order.
  function CommaGaps(s: string): seq<string>
    decreases |s|
  {
    if FirstComma(s) == |s| then []
    else
      [TrailingSpace(s[..FirstComma(s)]) + "," + LeadingSpace(s[FirstComma(s) + 1..])]
      + CommaGaps(TrimLeft(s[FirstComma(s) + 1..]))
  }

  // A match of `/\s*,\s*/`: white space, one comma, white space.
  predicate IsCommaGap(g: string) {
    HasComma(g) && AllSpace(g[..FirstComma(g)]) && AllSpace(g[FirstComma(g) + 1..])
  }

  predicate AllCommaGaps(gs: seq<string>) {
    forall k :: 0 <= k < |gs| ==> IsCommaGap(gs[k])
  }

  // The text each match of `/\s+/` covers, in order.
  function SpaceGaps(s: string): seq<string>
    decreases |s|
  {
    var i := FirstSpace(s);
    if i == |s| then []
    else [LeadingSpace(s[i..])] + SpaceGaps(TrimLeft(s[i..]))
  }

  // Each is a match of `/\s+/`: white space, and not empty.
  predicate AllSpaceGaps(gs: seq<string>) {
    forall k :: 0 <= k < |gs| ==> gs[k] != [] && AllSpace(gs[k])
  }

  lemma CommaGapShape(a: string, b: string)
    requires AllSpace(a) && AllSpace(b)
    ensures IsCommaGap(a + "," + b)
  {
    var g := a + "," + b;
    forall j | 0 <= j < |a| ensures !IsComma(g[j]) {
      assert g[j] == a[j];
    }
    FirstCommaIs(g, |a|);
    assert g[..|a|] == a && g[|a| + 1..] == b;
  }

  // At its first comma, `s` is the field before it, the separator and the
  // text after it.
  lemma CommaCut(x: string, y: string)
    ensures TrimRight(x) + (TrailingSpace(x) + "," + LeadingSpace(y)) + TrimLeft(y) == x + "," + y
    ensures IsCommaGap(TrailingSpace(x) + "," + LeadingSpace(y))
  {
    TrimRightThenTrailingSpace(x);
    LeadingSpaceThenTrimLeft(y);
    LeadingSpaceIsSpace(y);
    Regroup(TrimRight(x), TrailingSpace(x), LeadingSpace(y), TrimLeft(y));
    CommaGapShape(TrailingSpace(x), LeadingSpace(y));
  }

  lemma Regroup(a: string, b: string, c: string, d: string)
    ensures a + (b + "," + c) + d == (a + b) + "," + (c + d)
  {
  }

  lemma CommaSplitAt(s: string, c: nat)
    requires c < |s| && IsComma(s[c])
    ensures s == s[..c] + "," + s[c + 1..]
  {
    assert [s[c]] == ",";
    assert s == s[..c] + [s[c]] + s[c + 1..];
  }

  // Cutting at `/\s*,\s*/` loses nothing: the fields and the separators
  // between them, in order, are the text.
  lemma {:induction false} CommaFieldsRebuild(s: string)
    ensures |CommaFields(s)| == |CommaGaps(s)| + 1
    ensures AllCommaGaps(CommaGaps(s))
    ensures Interleave(CommaFields(s), CommaGaps(s)) == s
    decreases |s|
  {
    if FirstComma(s) < |s| {
      CommaFieldsRebuild(TrimLeft(s[FirstComma(s) + 1..]));
      CommaSplitAt(s, FirstComma(s));
      NoCommaBeforeFirst(s);
      CommaRebuildAt(s[..FirstComma(s)], s[FirstComma(s) + 1..]);
    }
  }

  // The step of the lemma above, for the text `pre + "," + post`.
  lemma CommaRebuildAt(pre: string, post: string)
    requires NoComma(pre)
    requires |CommaFields(TrimLeft(post))| == |CommaGaps(TrimLeft(post))| + 1
    requires AllCommaGaps(CommaGaps(TrimLeft(post)))
    requires Interleave(CommaFields(TrimLeft(post)), CommaGaps(TrimLeft(post))) == TrimLeft(post)
    ensures |CommaFields(pre + "," + post)| == |CommaGaps(pre + "," + post)| + 1
    ensures AllCommaGaps(CommaGaps(pre + "," + post))
    ensures Interleave(CommaFields(pre + "," + post), CommaGaps(pre + "," + post)) == pre + "," + post
  {
    CommaFieldsAt(pre, post);
    CommaGapsAt(pre, post);
    ConsRebuild(pre, post, CommaFields(TrimLeft(post)), CommaGaps(TrimLeft(post)));
  }

  // One field and one separator in front of an interleaving that rebuilds
  // the text after a comma rebuild the text before and after it.
  lemma ConsRebuild(x: string, y: string, fs: seq<string>, gs: seq<string>)
    requires |fs| == |gs| + 1 && AllCommaGaps(gs) && Interleave(fs, gs) == TrimLeft(y)
    ensures AllCommaGaps([TrailingSpace(x) + "," + LeadingSpace(y)] + gs)
    ensures Interleave([TrimRight(x)] + fs, [TrailingSpace(x) + "," + LeadingSpace(y)] + gs) == x + "," + y
  {
    CommaCut(x, y);
    ConsGap(TrimRight(x), TrailingSpace(x) + "," + LeadingSpace(y), fs, gs);
  }

  lemma ConsGap(h: string, g: string, fs: seq<string>, gs: seq<string>)
    requires IsCommaGap(g) && AllCommaGaps(gs) && |fs| == |gs| + 1
    ensures AllCommaGaps([g] + gs)
    ensures Interleave([h] + fs, [g] + gs) == h + g + Interleave(fs, gs)
  {
    assert ([h] + fs)[1..] == fs && ([g] + gs)[1..] == gs;
    forall k | 0 < k < |gs| + 1 ensures ([g] + gs)[k] == gs[k - 1] {
    }
  }

  lemma SpaceSplitParts(x: string, y: string)
    requires y != [] && IsSpace(y[0])
    ensures x + y == x + LeadingSpace(y) + TrimLeft(y)
    ensures LeadingSpace(y) != [] && AllSpace(LeadingSpace(y))
  {
    LeadingSpaceThenTrimLeft(y);
    Assoc(x, LeadingSpace(y), TrimLeft(y), y);
    LeadingSpaceIsSpace(y);
    LeadingSpaceStep(y);
  }

  lemma Assoc(x: string, l: string, t: string, y: string)
    requires l + t == y
    ensures x + y == x + l + t
  {
  }

  // Cutting at `/\s+/` loses nothing: the fields and the runs of white space
  // between them, in order, are the text. As no field holds white space and
  // no inner field is empty, this pins the fields down.
  lemma {:induction false} SpaceFieldsRebuild(s: string)
    ensures |SpaceFields(s)| == |SpaceGaps(s)| + 1
    ensures AllSpaceGaps(SpaceGaps(s))
    ensures Interleave(SpaceFields(s), SpaceGaps(s)) == s
    decreases |s|
  {
    if FirstSpace(s) < |s| {
      SpaceFieldsRebuild(TrimLeft(s[FirstSpace(s)..]));
      SpaceSplitAt(s);
      SpaceRebuildAt(s[..FirstSpace(s)], s[FirstSpace(s)..]);
    }
  }

  // The step of the lemma above, for a word `pre` followed by `post`, which
  // starts with white space.
  lemma SpaceRebuildAt(pre: string, post: string)
    requires NoSpace(pre) && post != [] && IsSpace(post[0])
    requires |SpaceFields(TrimLeft(post))| == |SpaceGaps(TrimLeft(post))| + 1
    requires AllSpaceGaps(SpaceGaps(TrimLeft(post)))
    requires Interleave(SpaceFields(TrimLeft(post)), SpaceGaps(TrimLeft(post))) == TrimLeft(post)
    ensures |SpaceFields(pre + post)| == |SpaceGaps(pre + post)| + 1
    ensures AllSpaceGaps(SpaceGaps(pre + post))
    ensures Interleave(SpaceFields(pre + post), SpaceGaps(pre + post)) == pre + post
  {
    SpaceFieldsAt(pre, post);
    SpaceGapsAt(pre, post);
    SpaceSplitParts(pre, post);
    ConsSpaceGap(pre, LeadingSpace(post), SpaceFields(TrimLeft(post)), SpaceGaps(TrimLeft(post)));
  }

  // At its first white space, `s` is a word followed by text that starts
  // with white space.
  lemma SpaceSplitAt(s: string)
    requires FirstSpace(s) < |s|
    ensures s == s[..FirstSpace(s)] + s[FirstSpace(s)..]
    ensures NoSpace(s[..FirstSpace(s)]) && s[FirstSpace(s)..] != [] && IsSpace(s[FirstSpace(s)..][0])
  {
    Halves(s, FirstSpace(s));
    WordBeforeFirstSpace(s);
    assert s[FirstSpace(s)..][0] == s[FirstSpace(s)];
  }

  lemma Halves(s: string, i: nat)
    requires i <= |s|
    ensures s == s[..i] + s[i..]
  {
  }

  lemma SpaceCutParts(pre: string, post: string)
    requires NoSpace(pre) && post != [] && IsSpace(post[0])
    ensures FirstSpace(pre + post) == |pre|
    ensures (pre + post)[..|pre|] == pre && (pre + post)[|pre|..] == post
  {
    FirstSpaceIs(pre + post, |pre|);
  }

  lemma SpaceFieldsAt(pre: string, post: string)
    requires NoSpace(pre) && post != [] && IsSpace(post[0])
    ensures SpaceFields(pre + post) == [pre] + SpaceFields(TrimLeft(post))
  {
    SpaceCutParts(pre, post);
    SpaceFieldsStep(pre + post);
  }

  lemma SpaceGapsAt(pre: string, post: string)
    requires NoSpace(pre) && post != [] && IsSpace(post[0])
    ensures SpaceGaps(pre + post) == [LeadingSpace(post)] + SpaceGaps(TrimLeft(post))
  {
    SpaceCutParts(pre, post);
  }

  lemma ConsSpaceGap(h: string, g: string, fs: seq<string>, gs: seq<string>)
    requires g != [] && AllSpace(g) && AllSpaceGaps(gs) && |fs| == |gs| + 1
    ensures AllSpaceGaps([g] + gs)
    ensures Interleave([h] + fs, [g] + gs) == h + g + Interleave(fs, gs)
  {
    assert ([h] + fs)[1..] == fs && ([g] + gs)[1..] == gs;
    forall k | 0 < k < |gs| + 1 ensures ([g] + gs)[k] == gs[k - 1] {
    }
  }

  // Every field but the first is empty or does not start with white space.
  predicate LaterFieldsStartTrimmed(fs: seq<string>) {
    forall k :: 0 < k < |fs| ==> fs[k] == [] || !IsSpace(fs[k][0])
  }

  // The first field `split(/\s*,\s*/)` cuts is a prefix of the text.
  lemma CommaFieldsHeadIsPrefix(t: string)
    ensures |CommaFields(t)[0]| <= |t| && CommaFields(t)[0] == t[..|CommaFields(t)[0]|]
  {
    if FirstComma(t) < |t| {
      CommaFieldsStep(t);
      FieldBeforeFirstComma(t);
      TrimRightIsPrefix(t[..FirstComma(t)]);
    }
  }

  lemma ConsStartTrimmed(h: string, rest: string, fs: seq<string>)
    requires rest == [] || !IsSpace(rest[0])
    requires |fs| >= 1 && |fs[0]| <= |rest| && fs[0] == rest[..|fs[0]|]
    requires LaterFieldsStartTrimmed(fs)
    ensures LaterFieldsStartTrimmed([h] + fs)
  {
    assert fs[0] == [] || fs[0][0] == rest[0];
    forall k | 0 < k < |fs| + 1 ensures ([h] + fs)[k] == fs[k - 1] {
    }
  }

  // The separator swallows the white space after its comma, so no field but
  // the first starts with white space.
  lemma {:induction false} CommaFieldsStartTrimmed(s: string)
    ensures LaterFieldsStartTrimmed(CommaFields(s))
    decreases |s|
  {
    if FirstComma(s) < |s| {
      CommaFieldsStartTrimmed(TrimLeft(s[FirstComma(s) + 1..]));
      TrimLeftIsSuffix(s[FirstComma(s) + 1..]);
      CommaFieldsStep(s);
      CommaFieldsHeadIsPrefix(TrimLeft(s[FirstComma(s) + 1..]));
      ConsStartTrimmed(TrimRight(s[..FirstComma(s)]), TrimLeft(s[FirstComma(s) + 1..]),
                       CommaFields(TrimLeft(s[FirstComma(s) + 1..])));
    }
  }

  // An empty field between two separators: the later separator starts with
  // its comma, as the earlier one took all the white space after its own.
  predicate GreedyGaps(fs: seq<string>, gs: seq<string>) {
    |fs| == |gs| + 1 &&
    forall k :: 0 < k < |gs| && fs[k] == [] ==> gs[k] != [] && gs[k][0] == ','
  }

  lemma CommaGapsAt(pre: string, post: string)
    requires NoComma(pre)
    ensures CommaGaps(pre + "," + post) == [TrailingSpace(pre) + "," + LeadingSpace(post)] + CommaGaps(TrimLeft(post))
  {
    CommaCutParts(pre, post);
    CommaGapsWithComma(pre + "," + post, |pre|);
  }

  // `CommaGaps` at the first comma `c` of `t`.
  lemma CommaGapsWithComma(t: string, c: nat)
    requires c == FirstComma(t) && c < |t|
    ensures CommaGaps(t) == [TrailingSpace(t[..c]) + "," + LeadingSpace(t[c + 1..])] + CommaGaps(TrimLeft(t[c + 1..]))
  {
  }

  // After white space has been trimmed, an empty first field means the text
  // starts with its comma.
  lemma HeadGapAfterEmpty(t: string)
    requires t == [] || !IsSpace(t[0])
    requires FirstComma(t) < |t| && CommaFields(t)[0] == []
    ensures CommaGaps(t) != [] && CommaGaps(t)[0] != [] && CommaGaps(t)[0][0] == ','
  {
    EmptyHeadAtComma(t);
    GapAtLeadingComma(t);
  }

  lemma EmptyHeadAtComma(t: string)
    requires t == [] || !IsSpace(t[0])
    requires FirstComma(t) < |t| && CommaFields(t)[0] == []
    ensures FirstComma(t) == 0
  {
    CommaFieldsStep(t);
    TrimRightIsEmptyIff(t[..FirstComma(t)]);
    SpacePrefixOfTrimmed(t, FirstComma(t));
  }

  lemma SpacePrefixOfTrimmed(t: string, c: nat)
    requires c <= |t| && AllSpace(t[..c]) && (t == [] || !IsSpace(t[0]))
    ensures c == 0
  {
    AllSpacePrefix(t, c);
  }

  lemma AllSpacePrefix(t: string, c: nat)
    requires c <= |t| && AllSpace(t[..c])
    ensures forall i :: 0 <= i < c ==> IsSpace(t[i])
  {
    forall i | 0 <= i < c ensures IsSpace(t[i]) {
      assert t[..c][i] == t[i];
    }
  }

  lemma GapAtLeadingComma(t: string)
    requires |t| > 0 && FirstComma(t) == 0
    ensures CommaGaps(t) != [] && CommaGaps(t)[0] != [] && CommaGaps(t)[0][0] == ','
  {
    CommaGapsWithComma(t, 0);
    assert TrailingSpace(t[..0]) == [];
    assert (TrailingSpace(t[..0]) + "," + LeadingSpace(t[1..]))[0] == ',';
  }

  lemma ConsGreedy(h: string, g: string, fs: seq<string>, gs: seq<string>)
    requires GreedyGaps(fs, gs)
    requires gs != [] && fs[0] == [] ==> gs[0] != [] && gs[0][0] == ','
    ensures GreedyGaps([h] + fs, [g] + gs)
  {
    forall k | 0 < k < |gs| + 1 ensures ([h] + fs)[k] == fs[k - 1] && ([g] + gs)[k] == gs[k - 1] {
    }
  }

  lemma {:induction false} CommaFieldsGreedy(s: string)
    ensures GreedyGaps(CommaFields(s), CommaGaps(s))
    decreases |s|
  {
    CommaFieldsRebuild(s);
    if FirstComma(s) < |s| {
      CommaFieldsGreedy(TrimLeft(s[FirstComma(s) + 1..]));
      TrimLeftIsSuffix(s[FirstComma(s) + 1..]);
      CommaFieldsStep(s);
      CommaGapsWithComma(s, FirstComma(s));
      if CommaGaps(TrimLeft(s[FirstComma(s) + 1..])) != [] && CommaFields(TrimLeft(s[FirstComma(s) + 1..]))[0] == [] {
        HeadGapAfterEmpty(TrimLeft(s[FirstComma(s) + 1..]));
      }
      ConsGreedy(TrimRight(s[..FirstComma(s)]), CommaGaps(s)[0],
                 CommaFields(TrimLeft(s[FirstComma(s) + 1..])), CommaGaps(TrimLeft(s[FirstComma(s) + 1..])));
    }
  }
}
