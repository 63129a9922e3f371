/**
 * The media panel's properties block: the file format derived from the
 * item's `src`, and the properties record replaced when a source is present.
 */
module MediaProperties {
  import opened Wrappers
  import opened Store

  /** The `MediaProperties` record; `size` is declared but never filled. */
  datatype Properties = Properties(
    width: Option<real>,
    height: Option<real>,
    format: Option<string>,
    size: Option<string>,
    src: Option<string>)

  const NoProperties := Properties(None, None, None, None, None)

  const UnknownFormat := "Unknown"

  /** `s.split(".").pop()`: the text after the last dot, or all of `s` without one. */
  function LastSegment(s: string): (r: string)
    ensures '.' !in r
    ensures |r| <= |s| && r == s[|s| - |r|..]
    ensures |r| < |s| ==> s[|s| - |r| - 1] == '.'
  {
    if s == [] then []
    else if s[|s| - 1] == '.' then []
    else LastSegment(s[..|s| - 1]) + [s[|s| - 1]]
  }

  /** The dot-free suffix that follows a dot is the last segment. */
  lemma {:induction false} LastSegmentAfterDot(base: string, ext: string)
    requires '.' !in ext
    ensures LastSegment(base + "." + ext) == ext
    decreases |ext|
  {
    var s := base + "." + ext;
    if ext == [] {
      assert s[|s| - 1] == '.';
    } else {
      assert s[..|s| - 1] == base + "." + ext[..|ext| - 1];
      LastSegmentAfterDot(base, ext[..|ext| - 1]);
      assert ext == ext[..|ext| - 1] + [ext[|ext| - 1]];
    }
  }

  /** `toUpperCase` on one character, for ASCII letters. */
  function UpperChar(c: char): (u: char)
    ensures !('a' <= u <= 'z')
    ensures 'a' <= c <= 'z' ==> u as int - c as int == 'A' as int - 'a' as int
    ensures !('a' <= c <= 'z') ==> u == c
  {
    if 'a' <= c <= 'z' then (c as int - 32) as char else c
  }

  /** `toUpperCase` on a string: each lower-case ASCII letter becomes its capital, every other character is kept. */
  function ToUpper(s: string): (u: string)
    ensures |u| == |s|
    ensures forall i :: 0 <= i < |u| ==> !('a' <= u[i] <= 'z')
    ensures forall i :: 0 <= i < |s| && 'a' <= s[i] <= 'z' ==> u[i] as int - s[i] as int == 'A' as int - 'a' as int
    ensures forall i :: 0 <= i < |s| && !('a' <= s[i] <= 'z') ==> u[i] == s[i]
  {
    seq(|s|, i requires 0 <= i < |s| => UpperChar(s[i]))
  }

  /** Upper-casing twice is upper-casing once. */
  lemma ToUpperIdempotent(s: string)
    ensures ToUpper(ToUpper(s)) == ToUpper(s)
  {
  }

  lemma UpperKeepsDotFree(s: string)
    requires '.' !in s
    ensures '.' !in ToUpper(s)
  {
  }

  lemma UpperIsNotUnknown(s: string)
    ensures ToUpper(s) != UnknownFormat
  {
    if |s| == |UnknownFormat| {
      assert ToUpper(s)[1] != 'n';
    }
  }

  /** The displayed format: the upper-cased extension, or "Unknown" when it is empty. */
  function Format(src: string): (f: string)
    ensures f != ""
    ensures '.' !in f
    ensures LastSegment(src) == "" <==> f == UnknownFormat
  {
    var ext := ToUpper(LastSegment(src));
    UpperKeepsDotFree(LastSegment(src));
    UpperIsNotUnknown(LastSegment(src));
    if ext == "" then UnknownFormat else ext
  }

  /** A file name with a non-empty extension shows that extension upper-cased. */
  lemma FormatOfExtension(base: string, ext: string)
    requires '.' !in ext && ext != ""
    ensures Format(base + "." + ext) == ToUpper(ext)
  {
    LastSegmentAfterDot(base, ext);
  }

  /** A source without a dot shows all of itself upper-cased. */
  lemma FormatWithoutDot(src: string)
    requires '.' !in src && src != ""
    ensures Format(src) == ToUpper(src)
  {
  }

  /** A source ending in a dot shows "Unknown". */
  lemma FormatAfterTrailingDot(base: string)
    ensures Format(base + ".") == UnknownFormat
  {
  }

  /** The dimensions row: shown only when both width and height are truthy (present and non-zero). */
  function DimensionsRow(p: Properties): (row: Option<(real, real)>)
    ensures row.Some? ==> p.width == Some(row.value.0) && p.height == Some(row.value.1)
    ensures row.Some? ==> row.value.0 != 0.0 && row.value.1 != 0.0
    ensures row.None? <==> p.width.None? || p.height.None? || p.width.value == 0.0 || p.height.value == 0.0
  {
    if p.width.Some? && p.width.value != 0.0 && p.height.Some? && p.height.value != 0.0
    then Some((p.width.value, p.height.value))
    else None
  }

  /** The format row: shown when the format is non-empty. */
  function FormatRow(p: Properties): (row: Option<string>)
    ensures row.Some? ==> p.format == Some(row.value) && row.value != ""
    ensures row.None? <==> p.format.None? || p.format.value == ""
  {
    if p.format.Some? && p.format.value != "" then p.format else None
  }

  /** The component's state. */
  class MediaPropertiesPanel {
    var properties: Properties

    constructor ()
      ensures properties == NoProperties
    {
      properties := NoProperties;
    }

    /** The effect run when the track item changes; `details` is the item's details, if any. */
    method TrackItemChanged(details: Option<Details>)
      modifies this
      ensures (details.Some? && details.value.src.Some? && details.value.src.value != "") ==>
        properties == Properties(details.value.width, details.value.height,
                                 Some(Format(details.value.src.value)), None, details.value.src)
      ensures !(details.Some? && details.value.src.Some? && details.value.src.value != "") ==>
        properties == old(properties)
      ensures (details.Some? && details.value.src.Some? && details.value.src.value != "") ==>
        FormatRow(properties).Some?
    {
      if details.Some? && details.value.src.Some? && details.value.src.value != "" {
        var src := details.value.src.value;
        var format := Format(src);
        properties := Properties(details.value.width, details.value.height, Some(format), None, Some(src));
      }
    }
  }
}
