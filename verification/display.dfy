/**
 * The text helpers the work cards render with, identical in
 * app/all-works/WorksClient.js, components/FetchLowerLayer/WorkOther.js and
 * components/SSG/Works/SwiperGallery.js: tag stripping and truncation of the
 * title and excerpt, `formatSkill`, `getCategoryName`, the column-count rule
 * and the gallery's own skill expression.
 */
module Display {
  import opened Values
  import opened Works
  import opened SkillShape

  const TitleMaxLength: nat := 25
  const ExcerptMaxLength: nat := 30

  predicate NoTagOpen(s: string) {
    forall i :: 0 <= i < |s| ==> s[i] != '<'
  }

  /** What follows the first '>' of `s`, or nothing when `s` has no '>'. */
  function SkipTag(s: string): (r: string)
    ensures |r| <= |s|
    decreases |s|
  {
    if s == [] then []
    else if s[0] == '>' then s[1..]
    else SkipTag(s[1..])
  }

  /**
   * `replace(/<[^>]*>?/gm, "")`: every '<' is removed together with what
   * follows it up to and including the next '>', or up to the end of the
   * text when no '>' follows.
   */
  function StripTags(s: string): (r: string)
    ensures NoTagOpen(r)
    ensures |r| <= |s|
    decreases |s|
  {
    if s == [] then []
    else if s[0] == '<' then StripTags(SkipTag(s[1..]))
    else [s[0]] + StripTags(s[1..])
  }

  /** Text without a '<' is left as it is. */
  lemma {:induction false} StripTagsKeepsPlainText(s: string)
    requires NoTagOpen(s)
    ensures StripTags(s) == s
    decreases |s|
  {
    if s != [] {
      StripTagsKeepsPlainText(s[1..]);
    }
  }

  /** Stripping twice strips nothing more. */
  lemma StripTagsIdempotent(s: string)
    ensures StripTags(StripTags(s)) == StripTags(s)
  {
    StripTagsKeepsPlainText(StripTags(s));
  }

  /** A tag body without '>' is skipped together with the '>' that closes it. */
  lemma {:induction false} SkipTagClosed(t: string, b: string)
    requires '>' !in t
    ensures SkipTag(t + ">" + b) == b
    decreases |t|
  {
    if t != [] {
      assert (t + ">" + b)[1..] == t[1..] + ">" + b;
      SkipTagClosed(t[1..], b);
    }
  }

  /** Without a closing '>', the skipped tag runs to the end of the text. */
  lemma {:induction false} SkipTagUnclosed(t: string)
    requires '>' !in t
    ensures SkipTag(t) == []
    decreases |t|
  {
    if t != [] {
      SkipTagUnclosed(t[1..]);
    }
  }

  /**
   * A closed tag is removed with both its brackets: the text before it is
   * kept as it is, and stripping carries on after the '>'.
   */
  lemma {:induction false} StripTagsRemovesClosedTag(a: string, t: string, b: string)
    requires NoTagOpen(a) && '>' !in t
    ensures StripTags(a + "<" + t + ">" + b) == a + StripTags(b)
    decreases |a|
  {
    var s := a + "<" + t + ">" + b;
    if a == [] {
      assert s[0] == '<' && s[1..] == t + ">" + b;
      SkipTagClosed(t, b);
    } else {
      assert s[0] == a[0] && s[1..] == a[1..] + "<" + t + ">" + b;
      StripTagsRemovesClosedTag(a[1..], t, b);
    }
  }

  /** A '<' that no '>' follows removes everything from it to the end. */
  lemma {:induction false} StripTagsRemovesUnclosedTag(a: string, t: string)
    requires NoTagOpen(a) && '>' !in t
    ensures StripTags(a + "<" + t) == a
    decreases |a|
  {
    var s := a + "<" + t;
    if a == [] {
      assert s[0] == '<' && s[1..] == t;
      SkipTagUnclosed(t);
    } else {
      assert s[0] == a[0] && s[1..] == a[1..] + "<" + t;
      StripTagsRemovesUnclosedTag(a[1..], t);
    }
  }

  /** Closed tags go, with their brackets. */
  lemma StripTagsClosedExample()
    ensures StripTags("<b>Hi</b>!") == "Hi!"
  {
    assert SkipTag("/b>!") == "!";
    StripTagsKeepsPlainText("!");
    assert StripTags("</b>!") == "!";
    assert StripTags("i</b>!") == "i!";
    assert StripTags("Hi</b>!") == "Hi!";
    assert SkipTag("b>Hi</b>!") == "Hi</b>!";
  }

  /** An unclosed tag takes the rest of the text with it. */
  lemma StripTagsUnclosedExample()
    ensures StripTags("ab<c") == "ab"
  {
    assert SkipTag("c") == "";
    assert StripTags("<c") == "";
    assert StripTags("b<c") == "b";
  }

  /**
   * `truncateTitle` / `truncateExcerpt`: a falsy value gives ""; otherwise
   * the value is converted with `String`, its tags are stripped, and text
   * longer than `maxLength` is cut to its first `maxLength` characters
   * followed by "...".
   */
  function Truncate(v: JsValue, maxLength: nat): (r: string)
    ensures !Truthy(v) ==> r == ""
    ensures NoTagOpen(r)
    ensures |r| <= maxLength + 3
    ensures Truthy(v) ==>
      var plain := StripTags(ToJsString(v));
      && (|plain| <= maxLength ==> r == plain)
      && (|plain| > maxLength ==>
            && |r| == maxLength + 3
            && r[..maxLength] == plain[..maxLength]
            && r[maxLength..] == "...")
  {
    if !Truthy(v) then ""
    else
      var plainText := StripTags(ToJsString(v));
      if |plainText| <= maxLength then plainText
      else plainText[..maxLength] + "..."
  }

  /** Short plain text is shown as it is: truncation has nothing to do. */
  lemma TruncateKeepsShortText(s: string, maxLength: nat)
    requires s != "" && NoTagOpen(s) && |s| <= maxLength
    ensures Truncate(Str(s), maxLength) == s
  {
    StripTagsKeepsPlainText(s);
  }

  /** Truncating what truncation showed changes nothing, as long as the
      limit leaves room for the "..." it may have added. */
  lemma TruncateStable(v: JsValue, maxLength: nat)
    ensures var r := Truncate(v, maxLength);
            |r| <= maxLength ==> Truncate(Str(r), maxLength) == r
  {
    var r := Truncate(v, maxLength);
    if r != "" && |r| <= maxLength {
      TruncateKeepsShortText(r, maxLength);
    }
  }

  function TruncateTitle(title: JsValue): (r: string)
    ensures |r| <= TitleMaxLength + 3 && NoTagOpen(r)
    ensures !Truthy(title) ==> r == ""
  {
    Truncate(title, TitleMaxLength)
  }

  function TruncateExcerpt(excerpt: JsValue): (r: string)
    ensures |r| <= ExcerptMaxLength + 3 && NoTagOpen(r)
    ensures !Truthy(excerpt) ==> r == ""
  {
    Truncate(excerpt, ExcerptMaxLength)
  }

  /** A 30-character title shows its first 25 characters and "...". */
  lemma LongTitleIsCut(s: string)
    requires |s| == 30 && NoTagOpen(s)
    ensures TruncateTitle(Str(s)) == s[..25] + "..."
  {
    StripTagsKeepsPlainText(s);
  }

  /**
   * `formatSkill`: a falsy value gives ""; an array gives its truthy elements
   * converted with `String` and joined with ", "; any other value is
   * converted with `String`.
   */
  function FormatSkill(v: JsValue): (r: string)
    ensures !Truthy(v) ==> r == ""
    ensures Truthy(v) && !v.Arr? ==> r == ToJsString(v)
    ensures v.Arr? && FilterTruthy(v.elems) == [] ==> r == ""
  {
    if !Truthy(v) then ""
    else match v
      case Arr(xs) => Join(ToStrings(FilterTruthy(xs)), ", ")
      case _ => ToJsString(v)
  }

  /** A falsy element of a skill array leaves no trace, not even a separator. */
  lemma FormatSkillIgnoresFalsy(xs: seq<JsValue>, x: JsValue)
    requires !Truthy(x)
    ensures FormatSkill(Arr(xs + [x])) == FormatSkill(Arr(xs))
  {
    assert (xs + [x])[..|xs|] == xs;
  }

  /** A truthy element appended to a skill array is shown after ", ", or
      alone when no element before it is truthy. */
  lemma FormatSkillAppend(xs: seq<JsValue>, x: JsValue)
    requires Truthy(x)
    ensures FilterTruthy(xs) == [] ==> FormatSkill(Arr(xs + [x])) == ToJsString(x)
    ensures FilterTruthy(xs) != [] ==>
              FormatSkill(Arr(xs + [x])) == FormatSkill(Arr(xs)) + ", " + ToJsString(x)
  {
    FilterTruthyAppend(xs, x);
    var f := FilterTruthy(xs);
    assert ToStrings(f + [x]) == ToStrings(f) + [ToJsString(x)];
    if f != [] {
      JoinAppend(ToStrings(f), ToJsString(x), ", ");
    }
  }

  /** A skill that is already text, as a direct field or a meta entry may
      hold, is shown as it is. */
  lemma FormatSkillShowsText(s: string)
    ensures FormatSkill(Str(s)) == s
  {
  }

  lemma FormatSkillExample()
    ensures FormatSkill(Arr([Str("React"), Null, Str(""), Str("Next.js")])) == "React, Next.js"
  {
    var xs := [Str("React"), Null, Str(""), Str("Next.js")];
    assert [Str("React")][..0] == [];
    assert FilterTruthy([Str("React")]) == [Str("React")];
    assert [Str("React"), Null][..1] == [Str("React")];
    assert FilterTruthy([Str("React"), Null]) == [Str("React")];
    assert [Str("React"), Null, Str("")][..2] == [Str("React"), Null];
    assert FilterTruthy([Str("React"), Null, Str("")]) == [Str("React")];
    assert xs[..3] == [Str("React"), Null, Str("")];
    assert FilterTruthy(xs) == [Str("React"), Str("Next.js")];
    assert ToStrings([Str("React"), Str("Next.js")]) == ["React", "Next.js"];
    assert ["React", "Next.js"][1..] == ["Next.js"];
  }

  /**
   * `getCategoryName`: the name of the work's first category, or "" when the
   * work, its categories or their nodes are missing, or there are none.
   */
  function CategoryName(work: Option<Work>): (r: string)
    ensures work.None? || work.value.categories.None? || work.value.categories.value == [] ==> r == ""
    ensures work.Some? && work.value.categories.Some? && work.value.categories.value != [] ==>
              r == work.value.categories.value[0].name
  {
    match work
    case None => ""
    case Some(w) =>
      match w.categories
      case None => ""
      case Some(nodes) => if |nodes| > 0 then nodes[0].name else ""
  }

  /** The category shown is one of the work's own categories, when it is not empty. */
  lemma CategoryNameIsOwn(w: Work)
    ensures var r := CategoryName(Some(w));
            r == "" || (w.categories.Some? && exists c :: c in w.categories.value && c.name == r)
  {
    if w.categories.Some? && w.categories.value != [] {
      assert w.categories.value[0] in w.categories.value;
    }
  }

  /** The column rule of the card grids: 1 up to 767 pixels, 2 up to 1023, 3 beyond. */
  function ColumnCount(width: int): (c: nat)
    ensures 1 <= c <= 3
    ensures c == 1 <==> width <= 767
    ensures c == 3 <==> width > 1023
  {
    if width <= 767 then 1 else if width <= 1023 then 2 else 3
  }

  /** A wider window never has fewer columns. */
  lemma ColumnCountMonotone(narrow: int, wide: int)
    requires narrow <= wide
    ensures ColumnCount(narrow) <= ColumnCount(wide)
  {
  }

  /**
   * The skill the gallery shows, `works.skill || skill || ""`: the first
   * truthy one of the nested and the direct skill, else "".
   */
  function GallerySkill(w: Work): (r: JsValue)
    ensures Truthy(r) || r == Str("")
    ensures w.works.Some? && Truthy(w.works.value.skill) ==> r == w.works.value.skill
    ensures !(w.works.Some? && Truthy(w.works.value.skill)) && Truthy(w.skill) ==> r == w.skill
  {
    if w.works.Some? && Truthy(w.works.value.skill) then w.works.value.skill
    else if Truthy(w.skill) then w.skill
    else Str("")
  }

  /**
   * The gallery's skill text agrees with the catalog's fallback chain, which
   * tests for `undefined` rather than for truthiness, except on a work whose
   * nested skill is defined but falsy while its direct skill is truthy.
   */
  lemma GallerySkillMatchesFallback(w: Work)
    requires !(w.works.Some? && w.works.value.skill != Undefined
               && !Truthy(w.works.value.skill) && Truthy(w.skill))
    ensures FormatSkill(GallerySkill(w)) == FormatSkill(GetSkill(Some(w), Unknown))
  {
  }

  /** On the excepted works the two differ: a null nested skill hides the direct one in the catalog only. */
  lemma GallerySkillDiffersOnNullNested()
    ensures var w := Work("1", Str("t"), "s", None, Undefined, Some(WorksGroup(Null)), Str("Figma"), None, None);
            FormatSkill(GallerySkill(w)) == "Figma" && FormatSkill(GetSkill(Some(w), Unknown)) == ""
  {
  }
}
