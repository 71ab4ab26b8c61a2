/** The theme's opinionated posts pagination: caller options merged over
    defaults and forced values, the raw link fragments from the host's
    `paginate_links`, previous/next anchors spliced back in next to the
    ellipses, the result formatted as a list or a newline join, and the
    body substituted into the navigation wrapper template. */
module PostsPagination {
  import opened PhpRuntime

  // ---------------------------------------------------------------------
  // Options

  const DefaultPrevText: string :=
    "<span class=\"fa fa-angle-double-left\" aria-hidden=\"true\"></span><span class=\"sr-only\">Previous</span>"
  const DefaultNextText: string :=
    "<span class=\"fa fa-angle-double-right\" aria-hidden=\"true\"></span><span class=\"sr-only\">Next</span>"
  const DefaultScreenReaderText: string := "Posts navigation"

  /** Opinionated defaults; the caller's options override them. */
  const Defaults: map<string, Value> := map[
    "mid_size" := Int(1),
    "prev_text" := Str(DefaultPrevText),
    "next_text" := Str(DefaultNextText),
    "screen_reader_text" := Str(DefaultScreenReaderText)
  ]

  /** Values that override everything before `paginate_links` runs. */
  const ForcedValues: map<string, Value> := map[
    "prev_next" := Bool(false),
    "type" := Str("array")
  ]

  /** The class identifier handed to the wrapper filter and to `sprintf`. */
  const PaginationClass: string := "posts-pagination"

  /** The value a key takes once the caller's options are merged over `fallback`. */
  function ArgOr(args: map<string, Value>, key: string, fallback: Value): Value {
    if key in args then args[key] else fallback
  }

  /** Whether the caller wants previous/next links: unset or null means
      yes, a set value is read with PHP truthiness. */
  predicate PrevNextPreference(args: map<string, Value>)
    ensures ("prev_next" !in args || args["prev_next"] == Null) ==> PrevNextPreference(args)
    ensures IsSet(args, "prev_next") ==> (PrevNextPreference(args) <==> Truthy(args["prev_next"]))
  {
    if IsSet(args, "prev_next") then Truthy(args["prev_next"]) else true
  }

  /** The output type the caller asked for: unset or null means 'plain',
      a set value is taken as given. */
  function TypePreference(args: map<string, Value>): (t: Value)
    ensures ("type" !in args || args["type"] == Null) ==> t == Str("plain")
    ensures IsSet(args, "type") ==> t == args["type"]
  {
    if IsSet(args, "type") then args["type"] else Str("plain")
  }

  function PrevText(args: map<string, Value>): string {
    ToStr(ArgOr(args, "prev_text", Str(DefaultPrevText)))
  }

  function NextText(args: map<string, Value>): string {
    ToStr(ArgOr(args, "next_text", Str(DefaultNextText)))
  }

  function ScreenReaderText(args: map<string, Value>): string {
    ToStr(ArgOr(args, "screen_reader_text", Str(DefaultScreenReaderText)))
  }

  /** Absent texts fall back to the theme's defaults; given ones are
      converted to strings as PHP's `.` and `%s` do. */
  lemma OptionDefaults(args: map<string, Value>)
    ensures "prev_text" in args ==> PrevText(args) == ToStr(args["prev_text"])
    ensures "prev_text" !in args ==> PrevText(args) == DefaultPrevText
    ensures "next_text" in args ==> NextText(args) == ToStr(args["next_text"])
    ensures "screen_reader_text" in args ==> ScreenReaderText(args) == ToStr(args["screen_reader_text"])
    ensures "next_text" !in args ==> NextText(args) == DefaultNextText
    ensures "screen_reader_text" !in args ==> ScreenReaderText(args) == DefaultScreenReaderText
  {
  }

  /** What the assembler reads back from the merged options equals the
      per-key preferences above. */
  lemma MergedOptions(args: map<string, Value>)
    ensures var merged := Defaults + args;
      (if IsSet(merged, "prev_next") then Truthy(merged["prev_next"]) else true) == PrevNextPreference(args)
      && (if IsSet(merged, "type") then merged["type"] else Str("plain")) == TypePreference(args)
    ensures var forced := (Defaults + args) + ForcedValues;
      "prev_text" in forced && "next_text" in forced && "screen_reader_text" in forced
      && ToStr(forced["prev_text"]) == PrevText(args)
      && ToStr(forced["next_text"]) == NextText(args)
      && ToStr(forced["screen_reader_text"]) == ScreenReaderText(args)
      && forced == PaginateArgs(args)
  {
    var merged := Defaults + args;
    var forced := merged + ForcedValues;
    assert "prev_next" !in Defaults && "type" !in Defaults;
    assert IsSet(merged, "prev_next") == IsSet(args, "prev_next");
    assert IsSet(merged, "type") == IsSet(args, "type");
    assert forced["prev_text"] == ArgOr(args, "prev_text", Str(DefaultPrevText));
    assert forced["next_text"] == ArgOr(args, "next_text", Str(DefaultNextText));
    assert forced["screen_reader_text"] == ArgOr(args, "screen_reader_text", Str(DefaultScreenReaderText));
  }

  /** The options `paginate_links` receives: defaults, then the caller's
      options, then the forced values, each later one winning. */
  function PaginateArgs(args: map<string, Value>): (r: map<string, Value>)
    ensures r.Keys == Defaults.Keys + args.Keys + ForcedValues.Keys
    ensures r["prev_next"] == Bool(false) && r["type"] == Str("array")
    ensures forall k :: k in Defaults ==> r[k] == ArgOr(args, k, Defaults[k])
    ensures forall k :: k in args && k !in ForcedValues ==> r[k] == args[k]
  {
    (Defaults + args) + ForcedValues
  }

  // ---------------------------------------------------------------------
  // Ellipsis detection and the previous/next anchors

  const DotsMarker: string := "class=\"page-numbers dots\""

  /** `strpos($fragment, 'class="page-numbers dots"')` used as a condition:
      the marker must occur, and its first occurrence must not be at index 0
      (PHP reads a position of 0 as false). */
  predicate IsEllipsis(fragment: string)
    ensures IsEllipsis(fragment) ==> |fragment| > |DotsMarker|
  {
    var p := StrPos(fragment, DotsMarker);
    p.Some? && p.value > 0
  }

  lemma IsEllipsisMeans(fragment: string)
    ensures IsEllipsis(fragment) <==>
      (exists j: nat :: OccursAt(fragment, DotsMarker, j)) && !OccursAt(fragment, DotsMarker, 0)
  {
    var p := StrPos(fragment, DotsMarker);
    if p.Some? {
      assert OccursAt(fragment, DotsMarker, p.value);
    }
  }

  /** The ellipsis fragment WordPress's `paginate_links` emits. */
  const WordPressDots: string := "<span " + DotsMarker + ">&hellip;</span>"

  lemma WordPressDotsIsEllipsis()
    ensures IsEllipsis(WordPressDots)
  {
    IsEllipsisMeans(WordPressDots);
    var open, rest := "<span ", ">&hellip;</span>";
    assert WordPressDots == open + DotsMarker + rest;
    assert (open + DotsMarker + rest)[|open|..|open| + |DotsMarker|] == DotsMarker;
    assert OccursAt(WordPressDots, DotsMarker, 6);
    assert WordPressDots[0] == '<' != DotsMarker[0];
    assert WordPressDots[..|DotsMarker|][0] == WordPressDots[0];
  }

  /** A fragment that starts with the marker is not taken for an ellipsis,
      because `strpos` then returns 0. */
  lemma MarkerAtStartIsNotEllipsis(rest: string)
    ensures !IsEllipsis(DotsMarker + rest)
  {
    IsEllipsisMeans(DotsMarker + rest);
    assert (DotsMarker + rest)[..|DotsMarker|] == DotsMarker;
    assert OccursAt(DotsMarker + rest, DotsMarker, 0);
  }

  const PrevAnchorOpen: string := "<a class=\"page-numbers prev\" href=\""
  const NextAnchorOpen: string := "<a class=\"page-numbers next\" href=\""

  /** The previous anchor: the URL verbatim in `href`, then the text
      verbatim as the anchor's content. */
  function PrevLink(url: string, text: string): (r: string)
    ensures |r| == |PrevAnchorOpen| + |url| + 2 + |text| + 4
    ensures r[..|PrevAnchorOpen|] == PrevAnchorOpen
    ensures OccursAt(r, url, |PrevAnchorOpen|)
    ensures OccursAt(r, "\">", |PrevAnchorOpen| + |url|)
    ensures OccursAt(r, text, |PrevAnchorOpen| + |url| + 2)
    ensures r[|r| - 4..] == "</a>"
  {
    PrevAnchorOpen + url + "\">" + text + "</a>"
  }

  /** The next anchor, shaped like the previous one. */
  function NextLink(url: string, text: string): (r: string)
    ensures |r| == |NextAnchorOpen| + |url| + 2 + |text| + 4
    ensures r[..|NextAnchorOpen|] == NextAnchorOpen
    ensures OccursAt(r, url, |NextAnchorOpen|)
    ensures OccursAt(r, "\">", |NextAnchorOpen| + |url|)
    ensures OccursAt(r, text, |NextAnchorOpen| + |url| + 2)
    ensures r[|r| - 4..] == "</a>"
  {
    NextAnchorOpen + url + "\">" + text + "</a>"
  }

  /** The previous link is inserted when index 1 holds an ellipsis and a
      previous URL exists. */
  predicate PrevApplies(links: seq<string>, prevUrl: Option<string>) {
    1 < |links| && IsEllipsis(links[1]) && TruthyOption(prevUrl)
  }

  /** The next link is inserted when the next-to-last index holds an
      ellipsis and a next URL exists. */
  predicate NextApplies(links: seq<string>, nextUrl: Option<string>) {
    2 <= |links| && IsEllipsis(links[|links| - 2]) && TruthyOption(nextUrl)
  }

  /** Previous-link step: the anchor goes in at index 2, right after the
      left ellipsis; the first two fragments stay put and the rest shift
      right by one. */
  function PrevStep(links: seq<string>, prevUrl: Option<string>, prevText: string): (r: seq<string>)
    ensures PrevApplies(links, prevUrl) ==>
      |r| == |links| + 1 && r[..2] == links[..2]
      && r[2] == PrevLink(prevUrl.value, prevText) && r[3..] == links[2..]
    ensures !PrevApplies(links, prevUrl) ==> r == links
  {
    if PrevApplies(links, prevUrl) then links[..2] + [PrevLink(prevUrl.value, prevText)] + links[2..]
    else links
  }

  /** Next-link step: the anchor goes in at index `count-2`, so the right
      ellipsis and the last link follow it. */
  function NextStep(links: seq<string>, nextUrl: Option<string>, nextText: string): (r: seq<string>)
    ensures NextApplies(links, nextUrl) ==>
      |r| == |links| + 1 && r[..|links| - 2] == links[..|links| - 2]
      && r[|links| - 2] == NextLink(nextUrl.value, nextText) && r[|links| - 1..] == links[|links| - 2..]
    ensures !NextApplies(links, nextUrl) ==> r == links
  {
    if NextApplies(links, nextUrl) then
      var k := |links| - 2;
      links[..k] + [NextLink(nextUrl.value, nextText)] + links[k..]
    else links
  }

  /** Both steps, the second one looking at the list the first one left. */
  function Spliced(links: seq<string>, prevNext: bool, prevUrl: Option<string>, nextUrl: Option<string>,
                   prevText: string, nextText: string): (r: seq<string>)
    ensures !prevNext ==> r == links
    ensures |links| <= |r| <= |links| + 2
  {
    if prevNext then NextStep(PrevStep(links, prevUrl, prevText), nextUrl, nextText) else links
  }

  /** The two `array_splice` calls, applied to the fragment list in place. */
  method SplicePrevNext(links: seq<string>, prevNext: bool, prevUrl: Option<string>, nextUrl: Option<string>,
                        prevText: string, nextText: string) returns (spliced: seq<string>)
    ensures spliced == Spliced(links, prevNext, prevUrl, nextUrl, prevText, nextText)
  {
    spliced := links;
    if prevNext {
      if 1 < |spliced| && IsEllipsis(spliced[1]) && TruthyOption(prevUrl) {
        spliced := ArraySplice(spliced, 2, PrevLink(prevUrl.value, prevText));
      }
      var nextToLast := |spliced| - 2;
      if 0 <= nextToLast < |spliced| && IsEllipsis(spliced[nextToLast]) && TruthyOption(nextUrl) {
        spliced := ArraySplice(spliced, -2, NextLink(nextUrl.value, nextText));
      }
    }
  }

  // ---------------------------------------------------------------------
  // Order preservation

  /** `a` can be obtained from `b` by deleting elements. */
  ghost predicate IsSubsequence(a: seq<string>, b: seq<string>)
    decreases |b|
  {
    if |a| == 0 then true
    else if |b| == 0 then false
    else (a[0] == b[0] && IsSubsequence(a[1..], b[1..])) || IsSubsequence(a, b[1..])
  }

  lemma {:induction false} SubsequenceRefl(a: seq<string>)
    ensures IsSubsequence(a, a)
  {
    if |a| > 0 {
      SubsequenceRefl(a[1..]);
    }
  }

  lemma {:induction false} SubsequenceInsert(a: seq<string>, b: seq<string>, i: nat, x: string)
    requires IsSubsequence(a, b) && i <= |b|
    ensures IsSubsequence(a, b[..i] + [x] + b[i..])
    decreases |b|
  {
    var c := b[..i] + [x] + b[i..];
    if |a| == 0 {
    } else if i == 0 {
      assert c[1..] == b;
    } else {
      assert c[0] == b[0];
      assert c[1..] == b[1..][..i - 1] + [x] + b[1..][i - 1..];
      if a[0] == b[0] && IsSubsequence(a[1..], b[1..]) {
        SubsequenceInsert(a[1..], b[1..], i - 1, x);
      } else {
        SubsequenceInsert(a, b[1..], i - 1, x);
      }
    }
  }

  /** Splicing never removes or reorders the original fragments. */
  lemma SplicedKeepsOrder(links: seq<string>, prevNext: bool, prevUrl: Option<string>, nextUrl: Option<string>,
                          prevText: string, nextText: string)
    ensures IsSubsequence(links, Spliced(links, prevNext, prevUrl, nextUrl, prevText, nextText))
  {
    SubsequenceRefl(links);
    if prevNext {
      var mid := PrevStep(links, prevUrl, prevText);
      if PrevApplies(links, prevUrl) {
        SubsequenceInsert(links, links, 2, PrevLink(prevUrl.value, prevText));
      }
      if NextApplies(mid, nextUrl) {
        SubsequenceInsert(links, mid, |mid| - 2, NextLink(nextUrl.value, nextText));
      }
    }
  }

  /** The intended layout: with an ellipsis on both sides and both URLs,
      the previous link lands right after the left ellipsis and the next
      link right before the right ellipsis. */
  lemma SplicedAroundBothEllipses(first: string, left: string, middle: seq<string>, right: string, last: string,
                                  prevUrl: string, nextUrl: string, prevText: string, nextText: string)
    requires IsEllipsis(left) && IsEllipsis(right)
    requires TruthyString(prevUrl) && TruthyString(nextUrl)
    ensures Spliced([first, left] + middle + [right, last], true, Some(prevUrl), Some(nextUrl), prevText, nextText)
         == [first, left, PrevLink(prevUrl, prevText)] + middle + [NextLink(nextUrl, nextText), right, last]
  {
    var links := [first, left] + middle + [right, last];
    var mid := PrevStep(links, Some(prevUrl), prevText);
    assert links[1] == left;
    assert mid == [first, left, PrevLink(prevUrl, prevText)] + middle + [right, last];
    assert mid[|mid| - 2] == right;
    assert mid[..|mid| - 2] == [first, left, PrevLink(prevUrl, prevText)] + middle;
    assert mid[|mid| - 2..] == [right, last];
  }

  /** Without a left ellipsis no previous link appears; without a right
      ellipsis (after the first step) no next link appears. */
  lemma SplicedOmitsUnanchored(links: seq<string>, prevUrl: Option<string>, nextUrl: Option<string>,
                               prevText: string, nextText: string)
    requires !(1 < |links| && IsEllipsis(links[1]))
    requires !(2 <= |links| && IsEllipsis(links[|links| - 2]))
    ensures Spliced(links, true, prevUrl, nextUrl, prevText, nextText) == links
  {
  }

  // ---------------------------------------------------------------------
  // Formatting

  /** PHP 8's `$type == 'list'` in the `switch`. */
  predicate SelectsList(linkType: Value)
    ensures linkType.Str? ==> (SelectsList(linkType) <==> linkType.s == "list")
    ensures linkType == Bool(true) ==> SelectsList(linkType)
    ensures linkType.Int? || linkType == Bool(false) || linkType == Null ==> !SelectsList(linkType)
  {
    linkType == Str("list") || linkType == Bool(true)
  }

  const UlOpen: string := "<ul class='page-numbers'>\n\t"
  const UlClose: string := "\n</ul>\n"
  const LiOpen: string := "<li>"
  const LiClose: string := "</li>"
  const ListOpen: string := UlOpen + LiOpen
  const ListSeparator: string := LiClose + "\n\t" + LiOpen
  const ListClose: string := LiClose + UlClose

  /** The requested output type applied to the final fragments; any type
      other than 'list' (including 'array') falls back to the plain join. */
  function FormatLinks(links: seq<string>, linkType: Value): (r: string)
    ensures SelectsList(linkType) ==>
      |ListOpen| + |ListClose| <= |r| && r[..|ListOpen|] == ListOpen && r[|r| - |ListClose|..] == ListClose
    ensures !SelectsList(linkType) ==> r == Join("\n", links)
  {
    if SelectsList(linkType) then ListOpen + Join(ListSeparator, links) + ListClose
    else Join("\n", links)
  }

  /** Each fragment wrapped in its own list item. */
  function ListItems(links: seq<string>): (items: seq<string>)
    ensures |items| == |links|
    ensures forall i :: 0 <= i < |links| ==> items[i] == LiOpen + links[i] + LiClose
  {
    if |links| == 0 then [] else [LiOpen + links[0] + LiClose] + ListItems(links[1..])
  }

  lemma {:induction false} JoinedListItems(links: seq<string>)
    requires |links| > 0
    ensures LiOpen + Join(ListSeparator, links) + LiClose == Join("\n\t", ListItems(links))
  {
    var items := ListItems(links);
    if |links| > 1 {
      JoinedListItems(links[1..]);
      assert items[1..] == ListItems(links[1..]);
      assert Join(ListSeparator, links) == links[0] + ListSeparator + Join(ListSeparator, links[1..]);
      assert Join("\n\t", items) == items[0] + "\n\t" + Join("\n\t", items[1..]);
    } else {
      assert items == [LiOpen + links[0] + LiClose];
    }
  }

  /** The 'list' type is an unordered list with one `<li>` per fragment,
      in order. */
  lemma ListFormatIsItems(links: seq<string>, linkType: Value)
    requires SelectsList(linkType) && |links| > 0
    ensures FormatLinks(links, linkType)
         == UlOpen + Join("\n\t", ListItems(links)) + UlClose
  {
    JoinedListItems(links);
    Regroup(UlOpen, LiOpen, Join(ListSeparator, links), LiClose, UlClose);
  }

  /** Regrouping a concatenation of five strings. */
  lemma Regroup(a: string, b: string, c: string, d: string, e: string)
    ensures (a + b) + c + (d + e) == a + (b + c + d) + e
  {
  }

  /** Every other type is the newline join: each fragment appears verbatim,
      with a newline only between neighbours. */
  lemma PlainFormatAt(links: seq<string>, linkType: Value, i: nat)
    requires !SelectsList(linkType) && i < |links|
    ensures FormatLinks(links, linkType) ==
      Join("\n", links[..i]) + (if i > 0 then "\n" else "") + links[i]
      + (if i + 1 < |links| then "\n" else "") + Join("\n", links[i + 1..])
  {
    JoinAt("\n", links, i);
  }

  // ---------------------------------------------------------------------
  // The navigation wrapper

  const NavOpen: string := "\t<nav class=\"loop-navigation "
  const NavLabelOpen: string := "\" role=\"navigation\" aria-label=\""
  const NavLinksOpen: string := "\">\n        <div class=\"nav-links\">"
  const NavClose: string := "</div>\n    </nav>\n"

  /** The markup the wrapper template produces for a wrapper class, a
      screen-reader label and a link body. */
  function NavMarkup(wrapperClass: string, screenReaderText: string, body: string): string {
    NavOpen + wrapperClass + NavLabelOpen + screenReaderText + NavLinksOpen + body + NavClose
  }

  lemma NavMarkupNonEmpty(wrapperClass: string, screenReaderText: string, body: string)
    ensures NavMarkup(wrapperClass, screenReaderText, body) != ""
  {
    assert NavMarkup(wrapperClass, screenReaderText, body)[0] == NavOpen[0];
  }

  /** Filter on `navigation_markup_template`: the incoming template is
      ignored; the class only becomes the literal `posts-pagination` for
      the class 'pagination', otherwise the first slot stays. */
  function WrapperMarkup(template: string, className: string): (r: Template)
    ensures |r| == 7
    ensures (Hole(Arg1) in r) == (className != "pagination")
    ensures Hole(Arg2) in r && Hole(Arg3) in r
  {
    [ Lit(NavOpen), if className == "pagination" then Lit(PaginationClass) else Hole(Arg1),
      Lit(NavLabelOpen), Hole(Arg2), Lit(NavLinksOpen), Hole(Arg3), Lit(NavClose) ]
  }

  /** Rendered with its own placeholders, the template is the source's
      output-buffered markup, byte for byte. */
  lemma WrapperTemplateText(template: string, className: string)
    ensures Sprintf(WrapperMarkup(template, className), "%1$s", "%2$s", "%3$s")
         == "\t<nav class=\"loop-navigation " + (if className == "pagination" then "posts-pagination" else "%1$s")
            + "\" role=\"navigation\" aria-label=\"" + "%2$s" + "\">\n        <div class=\"nav-links\">" + "%3$s"
            + "</div>\n    </nav>\n"
  {
    WrapperSubstitution(template, className, "%1$s", "%2$s", "%3$s");
  }

  lemma WrapperIgnoresTemplate(t1: string, t2: string, className: string)
    ensures WrapperMarkup(t1, className) == WrapperMarkup(t2, className)
  {
  }

  /** Substituting into the wrapper template puts the three arguments into
      the class, label and body positions, verbatim. */
  lemma WrapperSubstitution(template: string, className: string, a1: string, screenReaderText: string, body: string)
    ensures Sprintf(WrapperMarkup(template, className), a1, screenReaderText, body)
         == NavMarkup(if className == "pagination" then PaginationClass else a1, screenReaderText, body)
  {
    var t := WrapperMarkup(template, className);
    SprintfOfSeven(t, a1, screenReaderText, body);
  }

  /** A seven-piece template renders piece by piece. */
  lemma SprintfOfSeven(t: Template, a1: string, a2: string, a3: string)
    requires |t| == 7
    ensures Sprintf(t, a1, a2, a3) ==
      PieceText(t[0], a1, a2, a3) + PieceText(t[1], a1, a2, a3) + PieceText(t[2], a1, a2, a3)
      + PieceText(t[3], a1, a2, a3) + PieceText(t[4], a1, a2, a3) + PieceText(t[5], a1, a2, a3)
      + PieceText(t[6], a1, a2, a3)
  {
    assert t[0..] == t;
    assert t[7..] == [];
    SprintfSuffix(t, 0, a1, a2, a3);
    SprintfSuffix(t, 1, a1, a2, a3);
    SprintfSuffix(t, 2, a1, a2, a3);
    SprintfSuffix(t, 3, a1, a2, a3);
    SprintfSuffix(t, 4, a1, a2, a3);
    SprintfSuffix(t, 5, a1, a2, a3);
    SprintfSuffix(t, 6, a1, a2, a3);
  }

  /** One step of rendering a template from position `k` on. */
  lemma SprintfSuffix(t: Template, k: nat, a1: string, a2: string, a3: string)
    requires k < |t|
    ensures Sprintf(t[k..], a1, a2, a3) == PieceText(t[k], a1, a2, a3) + Sprintf(t[k + 1..], a1, a2, a3)
  {
    assert t[k..][1..] == t[k + 1..];
  }

  // ---------------------------------------------------------------------
  // The assembler

  /** With default options and a single fragment, the markup is the
      wrapper around that fragment alone, labelled "Posts navigation". */
  lemma SingleLinkMarkup(fragment: string, prevUrl: Option<string>, nextUrl: Option<string>)
    ensures var args: map<string, Value> := map[];
      NavMarkup(PaginationClass, ScreenReaderText(args),
                FormatLinks(Spliced([fragment], PrevNextPreference(args), prevUrl, nextUrl, PrevText(args), NextText(args)),
                            TypePreference(args)))
      == "\t<nav class=\"loop-navigation " + "posts-pagination" + "\" role=\"navigation\" aria-label=\""
         + "Posts navigation" + "\">\n        <div class=\"nav-links\">" + fragment + "</div>\n    </nav>\n"
  {
    var args: map<string, Value> := map[];
    assert ScreenReaderText(args) == "Posts navigation";
    assert Spliced([fragment], PrevNextPreference(args), prevUrl, nextUrl, PrevText(args), NextText(args)) == [fragment];
    assert FormatLinks([fragment], TypePreference(args)) == fragment;
  }

  /** `ucfwp_get_the_posts_pagination`. `paginateLinks` stands for the
      host's `paginate_links`, `previousPosts` and `nextPosts` for the
      results of `previous_posts(false)` and `next_posts(0, false)`. */
  method GetThePostsPagination(args: map<string, Value>, paginateLinks: map<string, Value> -> Option<seq<string>>,
                               previousPosts: Option<string>, nextPosts: Option<string>)
    returns (pagination: string)
    ensures var links := paginateLinks(PaginateArgs(args));
      pagination ==
        if links.None? || |links.value| == 0 then ""
        else NavMarkup(PaginationClass, ScreenReaderText(args),
                       FormatLinks(Spliced(links.value, PrevNextPreference(args), previousPosts, nextPosts,
                                           PrevText(args), NextText(args)),
                                   TypePreference(args)))
    ensures var links := paginateLinks(PaginateArgs(args));
      (pagination == "") == (links.None? || |links.value| == 0)
  {
    pagination := "";
    MergedOptions(args);
    var merged := Defaults + args;
    var prevNext := if IsSet(merged, "prev_next") then Truthy(merged["prev_next"]) else true;
    var linkType := if IsSet(merged, "type") then merged["type"] else Str("plain");
    assert prevNext == PrevNextPreference(args) && linkType == TypePreference(args);
    merged := merged + ForcedValues;
    assert merged == PaginateArgs(args);
    var links := paginateLinks(merged);
    if links.None? || |links.value| == 0 {
      return "";
    }
    var prevText, nextText := ToStr(merged["prev_text"]), ToStr(merged["next_text"]);
    var spliced := SplicePrevNext(links.value, prevNext, previousPosts, nextPosts, prevText, nextText);
    var formatted := FormatLinks(spliced, linkType);
    var wrapper := WrapperMarkup("", PaginationClass);
    var screenReaderText := ToStr(merged["screen_reader_text"]);
    WrapperSubstitution("", PaginationClass, PaginationClass, screenReaderText, formatted);
    NavMarkupNonEmpty(PaginationClass, screenReaderText, formatted);
    pagination := Sprintf(wrapper, PaginationClass, screenReaderText, formatted);
  }
}
