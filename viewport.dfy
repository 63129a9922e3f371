/**
 * The navbar's viewport selector: the preset sizes, their grouping by
 * category, the first-match lookup of the design size with a custom
 * fallback, and the resize request sent when a preset is chosen.
 */
module Viewport {
  import opened Wrappers

  datatype ViewportOption = ViewportOption(
    displayLabel: string,
    width: int,
    height: int,
    description: string,
    category: Option<string>,
    aspect: Option<string>)

  /** The design size held by the editor store. */
  datatype Size = Size(width: int, height: int)

  /** The `DESIGN_RESIZE` payload. */
  datatype ResizePayload = ResizePayload(width: int, height: int, name: string)

  const ViewportSizes: seq<ViewportOption> := [
    ViewportOption("Instagram Post (1080×1080)", 1080, 1080, "Square format for Instagram", Some("Social Media"), Some("1:1")),
    ViewportOption("Instagram Story (1080×1920)", 1080, 1920, "9:16 for Instagram Stories", Some("Social Media"), Some("9:16")),
    ViewportOption("TikTok/Reels (1080×1920)", 1080, 1920, "Vertical video for TikTok/Reels", Some("Social Media"), Some("9:16")),
    ViewportOption("Twitter (1200×675)", 1200, 675, "16:9 for Twitter posts", Some("Social Media"), Some("16:9")),
    ViewportOption("HD (1280×720)", 1280, 720, "720p HD video", Some("Video Standards"), Some("16:9")),
    ViewportOption("Full HD (1920×1080)", 1920, 1080, "1080p video, YouTube standard", Some("Video Standards"), Some("16:9")),
    ViewportOption("4K UHD (3840×2160)", 3840, 2160, "4K Ultra HD video", Some("Video Standards"), Some("16:9"))
  ]

  const OtherCategory := "Other"

  /** The categories the menu renders, in order. */
  const Categories: seq<string> := ["Video Standards", "Social Media", OtherCategory]

  const CustomDescription := "Custom size"

  /** `option.category || "Other"`: a missing or empty category files the option under "Other". */
  function CategoryOf(o: ViewportOption): string
  {
    if o.category.Some? && o.category.value != "" then o.category.value else OtherCategory
  }

  /** The category is never empty; it is "Other" exactly when the option has no category, an empty one, or "Other" itself. */
  lemma CategoryOfFallback(o: ViewportOption)
    ensures CategoryOf(o) != ""
    ensures CategoryOf(o) == OtherCategory <==> o.category.None? || o.category.value == "" || o.category.value == OtherCategory
    ensures CategoryOf(o) != OtherCategory ==> o.category == Some(CategoryOf(o))
  {
  }

  // ---------------------------------------------------------------------
  // Grouping
  // ---------------------------------------------------------------------

  /** The options of category `c`, in list order. */
  function InCategory(options: seq<ViewportOption>, c: string): (r: seq<ViewportOption>)
    ensures |r| <= |options|
    ensures forall o :: o in r ==> o in options && CategoryOf(o) == c
    ensures forall o :: o in options && CategoryOf(o) == c ==> o in r
  {
    if options == [] then []
    else
      var last := options[|options| - 1];
      InCategory(options[..|options| - 1], c) + (if CategoryOf(last) == c then [last] else [])
  }

  /** The `reduce` over the options: each option appended to the list of its category. */
  function Grouped(options: seq<ViewportOption>): map<string, seq<ViewportOption>>
  {
    if options == [] then map[]
    else
      var acc := Grouped(options[..|options| - 1]);
      var option := options[|options| - 1];
      var category := CategoryOf(option);
      acc[category := (if category in acc then acc[category] else []) + [option]]
  }

  /** The grouping, written as the source's loop over the options. */
  method GroupOptions(options: seq<ViewportOption>) returns (acc: map<string, seq<ViewportOption>>)
    ensures acc == Grouped(options)
  {
    acc := map[];
    var i := 0;
    while i < |options|
      invariant 0 <= i <= |options|
      invariant acc == Grouped(options[..i])
    {
      var option := options[i];
      var category := CategoryOf(option);
      if category !in acc {
        acc := acc[category := []];
      }
      acc := acc[category := acc[category] + [option]];
      assert options[..i + 1][..i] == options[..i];
      i := i + 1;
    }
    assert options[..i] == options;
  }

  /** A group exists exactly for each category some option has, and holds that category's options in list order. */
  lemma {:induction false} GroupedByCategory(options: seq<ViewportOption>, c: string)
    ensures c in Grouped(options) <==> InCategory(options, c) != []
    ensures c in Grouped(options) ==> Grouped(options)[c] == InCategory(options, c)
    decreases |options|
  {
    if options != [] {
      GroupedByCategory(options[..|options| - 1], c);
    }
  }

  /** Filtering by category keeps every copy of the options of that category and no other option. */
  lemma {:induction false} InCategoryCount(options: seq<ViewportOption>, c: string, o: ViewportOption)
    ensures multiset(InCategory(options, c))[o] == if CategoryOf(o) == c then multiset(options)[o] else 0
    decreases |options|
  {
    if options != [] {
      var init := options[..|options| - 1];
      var last := options[|options| - 1];
      InCategoryCount(init, c, o);
      assert options == init + [last];
    }
  }

  /** The groups partition the options: each option sits, as often as in the list, in the group of its own category and in no other. */
  lemma GroupsPartition(options: seq<ViewportOption>, o: ViewportOption)
    requires o in options
    ensures CategoryOf(o) in Grouped(options)
    ensures multiset(Grouped(options)[CategoryOf(o)])[o] == multiset(options)[o]
    ensures forall c :: c in Grouped(options) && c != CategoryOf(o) ==> o !in Grouped(options)[c]
  {
    GroupedByCategory(options, CategoryOf(o));
    InCategoryCount(options, CategoryOf(o), o);
    forall c | c in Grouped(options) && c != CategoryOf(o)
      ensures o !in Grouped(options)[c]
    {
      GroupedByCategory(options, c);
      InCategoryCount(options, c, o);
    }
  }

  /** The menu sections for the categories `cats`: a title and its options, skipping missing or empty groups. */
  function Sections(cats: seq<string>, groups: map<string, seq<ViewportOption>>): (r: seq<(string, seq<ViewportOption>)>)
    ensures |r| <= |cats|
    ensures forall i :: 0 <= i < |r| ==> r[i].0 in cats && r[i].0 in groups && r[i].1 == groups[r[i].0] && r[i].1 != []
    ensures forall c :: c in cats && c in groups && groups[c] != [] ==> (c, groups[c]) in r
  {
    if cats == [] then []
    else
      var c := cats[0];
      var rest := Sections(cats[1..], groups);
      if c in groups && groups[c] != [] then [(c, groups[c])] + rest else rest
  }

  /** Sections keep the order of the categories: the menu for `a + b` is the menu for `a` followed by the menu for `b`. */
  lemma {:induction false} SectionsAppend(a: seq<string>, b: seq<string>, groups: map<string, seq<ViewportOption>>)
    ensures Sections(a + b, groups) == Sections(a, groups) + Sections(b, groups)
  {
    if a == [] {
      assert a + b == b;
    } else {
      assert (a + b)[1..] == a[1..] + b;
      SectionsAppend(a[1..], b, groups);
    }
  }

  /** The preset menu: Video Standards then Social Media; "Other" has no preset and is skipped. */
  lemma PresetMenu()
    ensures Sections(Categories, Grouped(ViewportSizes))
         == [("Video Standards", ViewportSizes[4..]), ("Social Media", ViewportSizes[..4])]
  {
    var g := Grouped(ViewportSizes);
    SocialMediaPresets();
    VideoStandardPresets();
    NoOtherPresets();
    GroupedByCategory(ViewportSizes, "Social Media");
    GroupedByCategory(ViewportSizes, "Video Standards");
    GroupedByCategory(ViewportSizes, OtherCategory);
    MenuOfTwoGroups(g, ViewportSizes[4..], ViewportSizes[..4]);
  }

  lemma MenuOfTwoGroups(g: map<string, seq<ViewportOption>>, video: seq<ViewportOption>, social: seq<ViewportOption>)
    requires video != [] && social != []
    requires "Video Standards" in g && g["Video Standards"] == video
    requires "Social Media" in g && g["Social Media"] == social
    requires OtherCategory !in g
    ensures Sections(Categories, g) == [("Video Standards", video), ("Social Media", social)]
  {
    var cats := Categories;
    assert cats[1..][1..] == [OtherCategory];
    assert Sections(cats[1..][1..], g) == [];
  }

  lemma SocialMediaPresets()
    ensures InCategory(ViewportSizes, "Social Media") == ViewportSizes[..4]
  {
    var v, c := ViewportSizes, "Social Media";
    assert v == v[..4] + v[4..];
    assert forall o :: o in v[..4] ==> CategoryOf(o) == c by {
      assert v[..4] == [v[0], v[1], v[2], v[3]];
    }
    assert forall o :: o in v[4..] ==> CategoryOf(o) != c by {
      assert v[4..] == [v[4], v[5], v[6]];
    }
    InCategoryAppend(v[..4], v[4..], c);
    InCategoryAll(v[..4], c);
    InCategoryNone(v[4..], c);
  }

  lemma VideoStandardPresets()
    ensures InCategory(ViewportSizes, "Video Standards") == ViewportSizes[4..]
  {
    var v, c := ViewportSizes, "Video Standards";
    assert v == v[..4] + v[4..];
    assert forall o :: o in v[..4] ==> CategoryOf(o) != c by {
      assert v[..4] == [v[0], v[1], v[2], v[3]];
    }
    assert forall o :: o in v[4..] ==> CategoryOf(o) == c by {
      assert v[4..] == [v[4], v[5], v[6]];
    }
    InCategoryAppend(v[..4], v[4..], c);
    InCategoryNone(v[..4], c);
    InCategoryAll(v[4..], c);
  }

  lemma NoOtherPresets()
    ensures InCategory(ViewportSizes, OtherCategory) == []
  {
    var v := ViewportSizes;
    assert forall o :: o in v ==> CategoryOf(o) != OtherCategory by {
      assert v == [v[0], v[1], v[2], v[3], v[4], v[5], v[6]];
    }
    InCategoryNone(v, OtherCategory);
  }

  /** Filtering distributes over concatenation. */
  lemma {:induction false} InCategoryAppend(a: seq<ViewportOption>, b: seq<ViewportOption>, c: string)
    ensures InCategory(a + b, c) == InCategory(a, c) + InCategory(b, c)
    decreases |b|
  {
    if b == [] {
      assert a + b == a;
    } else {
      var init := b[..|b| - 1];
      assert (a + b)[..|a + b| - 1] == a + init;
      InCategoryAppend(a, init, c);
    }
  }

  lemma {:induction false} InCategoryAll(a: seq<ViewportOption>, c: string)
    requires forall o :: o in a ==> CategoryOf(o) == c
    ensures InCategory(a, c) == a
    decreases |a|
  {
    if a != [] {
      var init, last := a[..|a| - 1], a[|a| - 1];
      assert a == init + [last];
      assert CategoryOf(last) == c;
      InCategoryAll(init, c);
      assert InCategory(a, c) == InCategory(init, c) + [last];
    }
  }

  lemma {:induction false} InCategoryNone(a: seq<ViewportOption>, c: string)
    requires forall o :: o in a ==> CategoryOf(o) != c
    ensures InCategory(a, c) == []
    decreases |a|
  {
    if a != [] {
      var init, last := a[..|a| - 1], a[|a| - 1];
      assert a == init + [last];
      assert CategoryOf(last) != c;
      InCategoryNone(init, c);
    }
  }

  // ---------------------------------------------------------------------
  // Current option
  // ---------------------------------------------------------------------

  predicate SameSize(o: ViewportOption, width: int, height: int)
  {
    o.width == width && o.height == height
  }

  /** `Array.prototype.find`: the first option of the given size. */
  function FindPreset(options: seq<ViewportOption>, width: int, height: int): (r: Option<ViewportOption>)
    ensures r.Some? ==> r.value in options && SameSize(r.value, width, height)
    ensures r.None? <==> forall i :: 0 <= i < |options| ==> !SameSize(options[i], width, height)
  {
    if options == [] then None
    else if SameSize(options[0], width, height) then Some(options[0])
    else
      var r := FindPreset(options[1..], width, height);
      assert forall i :: 1 <= i < |options| ==> options[i] == options[1..][i - 1];
      r
  }

  /** The lookup returns the first matching option, never a later one. */
  lemma {:induction false} FindPresetIsFirst(options: seq<ViewportOption>, width: int, height: int, i: nat)
    requires i < |options| && SameSize(options[i], width, height)
    requires forall j :: 0 <= j < i ==> !SameSize(options[j], width, height)
    ensures FindPreset(options, width, height) == Some(options[i])
  {
    if i > 0 {
      assert !SameSize(options[0], width, height);
      FindPresetIsFirst(options[1..], width, height, i - 1);
    }
  }

  /** Decimal text of an integer, as a template literal renders it. */
  function IntToString(n: int): (s: string)
    ensures s != []
    ensures forall ch :: ch in s ==> ch == '-' || '0' <= ch <= '9'
  {
    if n < 0 then "-" + NatToString(-n) else NatToString(n)
  }

  function NatToString(n: nat): (s: string)
    ensures s != []
    ensures forall ch :: ch in s ==> '0' <= ch <= '9'
  {
    var digit := [(n % 10 + '0' as int) as char];
    if n < 10 then digit else NatToString(n / 10) + digit
  }

  /** The option shown for a size that matches no preset. */
  function Custom(size: Size): (r: ViewportOption)
    ensures r.width == size.width && r.height == size.height
    ensures r.description == CustomDescription && r.category.None?
    ensures r !in ViewportSizes
  {
    ViewportOption(
      IntToString(size.width) + "×" + IntToString(size.height),
      size.width, size.height, CustomDescription, None,
      Some(IntToString(size.width) + ":" + IntToString(size.height)))
  }

  /** The option the preset effect selects for the design size. */
  function CurrentOptionFor(size: Size): (r: ViewportOption)
    ensures r.width == size.width && r.height == size.height
    ensures r in ViewportSizes || (r.description == CustomDescription && r.category.None?)
    ensures r !in ViewportSizes <==> forall i :: 0 <= i < |ViewportSizes| ==> !SameSize(ViewportSizes[i], size.width, size.height)
    ensures r !in ViewportSizes ==>
      && r.displayLabel == IntToString(size.width) + "×" + IntToString(size.height)
      && r.aspect == Some(IntToString(size.width) + ":" + IntToString(size.height))
  {
    match FindPreset(ViewportSizes, size.width, size.height)
    case Some(o) => o
    case None => Custom(size)
  }

  /** 1080×1920 shows Instagram Story, the earlier of the two presets of that size. */
  lemma StoryBeforeReels()
    ensures CurrentOptionFor(Size(1080, 1920)) == ViewportSizes[1]
  {
  }

  /** TikTok/Reels is never shown as the current option, whatever the size. */
  lemma ReelsNeverShown(size: Size)
    ensures CurrentOptionFor(size) != ViewportSizes[2]
  {
  }

  /** Choosing a preset and resizing the design to the requested size shows that preset again, unless an earlier preset has the same size. */
  lemma ChosenPresetShown(i: nat)
    requires i < |ViewportSizes|
    requires forall j :: 0 <= j < i ==> !SameSize(ViewportSizes[j], ViewportSizes[i].width, ViewportSizes[i].height)
    ensures CurrentOptionFor(Size(ViewportSizes[i].width, ViewportSizes[i].height)) == ViewportSizes[i]
  {
    FindPresetIsFirst(ViewportSizes, ViewportSizes[i].width, ViewportSizes[i].height, i);
  }

  /** The selector's state: the current option and the resize requests it has dispatched. */
  class ViewportSelector {
    var currentOption: Option<ViewportOption>
    ghost var resizes: seq<ResizePayload>

    constructor ()
      ensures currentOption.None? && resizes == []
    {
      currentOption := None;
      resizes := [];
    }

    /** The preset effect, run when the design size changes. */
    method SizeChanged(size: Size)
      modifies this`currentOption
      ensures currentOption == Some(CurrentOptionFor(size))
    {
      var matchingOption := FindPreset(ViewportSizes, size.width, size.height);
      if matchingOption.Some? {
        currentOption := matchingOption;
      } else {
        currentOption := Some(Custom(size));
      }
    }

    /** `handleViewportChange`: requests exactly the chosen option's size, named by its label. */
    method HandleViewportChange(option: ViewportOption)
      modifies this`resizes
      ensures resizes == old(resizes) + [ResizePayload(option.width, option.height, option.displayLabel)]
    {
      resizes := resizes + [ResizePayload(option.width, option.height, option.displayLabel)];
    }
  }
}
