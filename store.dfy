/**
 * The entities of the editor's reactive store that the core reads
 * (`trackItemsMap` entries, their display windows and the per-item details).
 */
module Store {
  import opened Wrappers

  /** The window `[from, to]`, in milliseconds, during which a track item is shown. */
  datatype Display = Display(from: real, to: real)

  /** A track item: its id, its `type` (text, caption, image, video, audio, ...) and display window. */
  datatype TrackItem = TrackItem(id: string, kind: string, display: Display)

  /** The part of a track item's `details` record the panels read. */
  datatype Details = Details(src: Option<string>, width: Option<real>, height: Option<real>)

  /** The empty details record `{}`. */
  const EmptyDetails := Details(None, None, None)

  /** A `trackItemDetailsMap` entry: its `details` record may be missing. */
  datatype DetailsEntry = DetailsEntry(details: Option<Details>)
}
